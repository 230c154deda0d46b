/** place_stone: putting a stone down and turning over every run of opponent
    stones it closes. The method works on a fresh copy of the board and flips
    direction by direction, reading the copy it is changing; the pure
    function AfterMove states the result on the original board, and the
    lemmas show the two agree and describe which cells change. */
module Placement {
  import opened Board
  import opened Rules

  /** -1, 0 or 1 according to the sign of n. */
  function Sign(n: int): int {
    if n > 0 then 1 else if n < 0 then -1 else 0
  }

  /** Seen from (x, y), the cell (cx, cy) lies in the direction of d: the
      signs of its offsets are d's components. */
  predicate InSector(x: int, y: int, cx: int, cy: int, d: Dir) {
    Sign(cx - x) == d.0 && Sign(cy - y) == d.1
  }

  /** The number of steps from (x, y) to (cx, cy) along a line of the board. */
  function Dist(x: int, y: int, cx: int, cy: int): int {
    if cx > x then cx - x
    else if cx < x then x - cx
    else if cy > y then cy - y
    else y - cy
  }

  /** (cx, cy) is 1 to n steps from (x, y) along d. */
  predicate OnRay(x: int, y: int, d: Dir, n: int, cx: int, cy: int) {
    1 <= Dist(x, y, cx, cy) <= n &&
    cx == Offset(x, d.0, Dist(x, y, cx, cy)) && cy == Offset(y, d.1, Dist(x, y, cx, cy))
  }

  /** Placing at (x, y) turns (cx, cy) over along d: the run of opponent
      stones along d is closed by the mover's stone, and (cx, cy) is in it. */
  predicate FlipsAlong(g: Grid, stone: Stone, x: int, y: int, d: Dir, cx: int, cy: int)
    requires IsGrid(g)
  {
    Closed(g, stone, x, y, d) &&
    OnRay(x, y, d, RunLength(g, Opponent(stone), x + d.0, y + d.1, d), cx, cy)
  }

  /** (cx, cy) is turned over along one of the first n directions. */
  predicate FlippedWithin(g: Grid, stone: Stone, x: int, y: int, n: int, cx: int, cy: int)
    requires IsGrid(g) && 0 <= n <= |Directions|
  {
    n > 0 &&
    (FlippedWithin(g, stone, x, y, n - 1, cx, cy) || FlipsAlong(g, stone, x, y, Directions[n - 1], cx, cy))
  }

  /** The value of (cx, cy) once the first n directions have been flipped. */
  function PartialCell(g: Grid, stone: Stone, x: int, y: int, n: int, cx: int, cy: int): int
    requires IsGrid(g) && InBounds(cx, cy) && 0 <= n <= |Directions|
  {
    if (cx, cy) == (x, y) || FlippedWithin(g, stone, x, y, n, cx, cy) then stone else g[cy][cx]
  }

  /** The board after placing `stone` at (x, y). */
  function AfterMove(g: Grid, stone: Stone, x: int, y: int): (h: Grid)
    requires IsGrid(g)
    ensures IsGrid(h)
    ensures forall cx, cy :: InBounds(cx, cy) ==> h[cy][cx] == PartialCell(g, stone, x, y, |Directions|, cx, cy)
  {
    seq(Size, cy requires 0 <= cy < Size =>
      seq(Size, cx requires 0 <= cx < Size => PartialCell(g, stone, x, y, |Directions|, cx, cy)))
  }

  // ---------------------------------------------------------------------
  // Rays from one cell do not meet

  /** A cell on the ray along d lies in d's sector. */
  lemma OnRayInSector(x: int, y: int, d: Dir, n: int, cx: int, cy: int)
    requires OnRay(x, y, d, n, cx, cy)
    ensures InSector(x, y, cx, cy, d)
  {
  }

  /** The cell i >= 1 steps along d is i steps away. */
  lemma DistAt(x: int, y: int, d: Dir, i: int)
    requires i >= 1
    ensures Dist(x, y, Offset(x, d.0, i), Offset(y, d.1, i)) == i
  {
  }

  /** Lengthening a ray by one step adds exactly the next cell. */
  lemma OnRayExtend(x: int, y: int, d: Dir, k: int, cx: int, cy: int)
    requires k >= 0
    ensures OnRay(x, y, d, k + 1, cx, cy) <==>
      OnRay(x, y, d, k, cx, cy) || (cx, cy) == (Offset(x, d.0, k + 1), Offset(y, d.1, k + 1))
  {
    DistAt(x, y, d, k + 1);
  }

  /** No two of the 8 directions are equal. */
  lemma DirectionsDistinct()
    ensures forall a, b :: 0 <= a < b < |Directions| ==> Directions[a] != Directions[b]
  {
  }

  /** A cell in the sector of direction i is not turned over by any of the
      directions tried before it. */
  lemma {:induction false} NotFlippedInSector(g: Grid, stone: Stone, x: int, y: int, n: int, i: int, cx: int, cy: int)
    requires IsGrid(g) && 0 <= n <= i < |Directions|
    requires InSector(x, y, cx, cy, Directions[i])
    ensures !FlippedWithin(g, stone, x, y, n, cx, cy)
  {
    if n > 0 {
      NotFlippedInSector(g, stone, x, y, n - 1, i, cx, cy);
      var d := Directions[n - 1];
      if OnRay(x, y, d, RunLength(g, Opponent(stone), x + d.0, y + d.1, d), cx, cy) {
        OnRayInSector(x, y, d, RunLength(g, Opponent(stone), x + d.0, y + d.1, d), cx, cy);
        DirectionsDistinct();
        assert false;
      }
    }
  }

  /** Two boards that agree on the sector of d give the same walk along d
      from any cell of that sector, and the walk stops inside the sector. */
  lemma {:induction false} RunAgrees(g1: Grid, g2: Grid, opp: int, x: int, y: int, nx: int, ny: int, d: Dir)
    requires IsGrid(g1) && IsGrid(g2) && InSector(x, y, nx, ny, d)
    requires forall cx, cy :: InBounds(cx, cy) && InSector(x, y, cx, cy, d) ==> g1[cy][cx] == g2[cy][cx]
    ensures RunFrom(g1, opp, nx, ny, d) == RunFrom(g2, opp, nx, ny, d)
    ensures RunEnd(g1, opp, nx, ny, d) == RunEnd(g2, opp, nx, ny, d)
    ensures InSector(x, y, RunEnd(g1, opp, nx, ny, d).0, RunEnd(g1, opp, nx, ny, d).1, d)
    decreases StepsLeft(nx, ny, d)
  {
    if InBounds(nx, ny) && g1[ny][nx] == opp {
      assert InSector(x, y, nx + d.0, ny + d.1, d);
      RunAgrees(g1, g2, opp, x, y, nx + d.0, ny + d.1, d);
    }
  }

  /** The stones a walk from (x, y) along d passes over are exactly the
      cells 1 to n steps out, n being the length of the run. */
  lemma RunIsRay(g: Grid, opp: int, x: int, y: int, d: Dir, cx: int, cy: int)
    requires IsGrid(g)
    ensures (cx, cy) in RunFrom(g, opp, x + d.0, y + d.1, d) <==>
      OnRay(x, y, d, RunLength(g, opp, x + d.0, y + d.1, d), cx, cy)
  {
    if (cx, cy) in RunFrom(g, opp, x + d.0, y + d.1, d) {
      RunCellIsOnRay(g, opp, x, y, d, cx, cy);
    }
    if OnRay(x, y, d, RunLength(g, opp, x + d.0, y + d.1, d), cx, cy) {
      RayCellIsInRun(g, opp, x, y, d, cx, cy);
    }
  }

  lemma RunCellIsOnRay(g: Grid, opp: int, x: int, y: int, d: Dir, cx: int, cy: int)
    requires IsGrid(g) && (cx, cy) in RunFrom(g, opp, x + d.0, y + d.1, d)
    ensures OnRay(x, y, d, RunLength(g, opp, x + d.0, y + d.1, d), cx, cy)
  {
    assert x + d.0 == Offset(x, d.0, 1) && y + d.1 == Offset(y, d.1, 1);
    RunCellsAt(g, opp, x, y, d, 1);
    var run := RunFrom(g, opp, x + d.0, y + d.1, d);
    var t :| 0 <= t < |run| && run[t] == (cx, cy);
    DistAt(x, y, d, 1 + t);
  }

  lemma RayCellIsInRun(g: Grid, opp: int, x: int, y: int, d: Dir, cx: int, cy: int)
    requires IsGrid(g) && OnRay(x, y, d, RunLength(g, opp, x + d.0, y + d.1, d), cx, cy)
    ensures (cx, cy) in RunFrom(g, opp, x + d.0, y + d.1, d)
  {
    assert x + d.0 == Offset(x, d.0, 1) && y + d.1 == Offset(y, d.1, 1);
    RunCellsAt(g, opp, x, y, d, 1);
    var t := Dist(x, y, cx, cy) - 1;
    assert RunFrom(g, opp, x + d.0, y + d.1, d)[t] == (cx, cy);
  }

  /** Flipping one more direction changes exactly the cells it turns over. */
  lemma PartialCellStep(g: Grid, stone: Stone, x: int, y: int, i: int, cx: int, cy: int)
    requires IsGrid(g) && InBounds(cx, cy) && 0 <= i < |Directions|
    ensures PartialCell(g, stone, x, y, i + 1, cx, cy) ==
      if FlipsAlong(g, stone, x, y, Directions[i], cx, cy) then stone else PartialCell(g, stone, x, y, i, cx, cy)
  {
  }

  /** When the run along d is closed, the cells it turns over are exactly
      the stones the walk passed. */
  lemma FlipsAlongInRun(g: Grid, stone: Stone, x: int, y: int, d: Dir, cx: int, cy: int)
    requires IsGrid(g) && Closed(g, stone, x, y, d)
    ensures FlipsAlong(g, stone, x, y, d, cx, cy) <==> (cx, cy) in RunFrom(g, Opponent(stone), x + d.0, y + d.1, d)
  {
    RunIsRay(g, Opponent(stone), x, y, d, cx, cy);
  }

  // ---------------------------------------------------------------------
  // place_stone

  /** Sets every listed cell of the board to `stone`, in list order. */
  method TurnOver(nb: array2<int>, cells: seq<Pos>, stone: Stone)
    requires IsBoardArray(nb)
    requires forall k :: 0 <= k < |cells| ==> InBounds(cells[k].0, cells[k].1)
    modifies nb
    ensures forall cx, cy :: InBounds(cx, cy) ==>
      nb[cy, cx] == (if (cx, cy) in cells then stone else old(nb[cy, cx]))
  {
    for k := 0 to |cells|
      invariant forall cx, cy :: InBounds(cx, cy) ==>
        nb[cy, cx] == (if (cx, cy) in cells[..k] then stone else old(nb[cy, cx]))
    {
      var f := cells[k];
      assert cells[..k + 1] == cells[..k] + [f];
      nb[f.1, f.0] := stone;
    }
    assert cells[..|cells|] == cells;
  }

  /** One pass of place_stone's direction loop: walk along d on the board
      being changed and, when the walk stops on the mover's stone, turn over
      the stones it passed. */
  method FlipDirection(nb: array2<int>, ghost g: Grid, stone: Stone, x: int, y: int, ghost i: int, d: Dir)
    requires IsBoardArray(nb) && IsGrid(g) && InBounds(x, y)
    requires 0 <= i < |Directions| && d == Directions[i]
    requires forall cx, cy :: InBounds(cx, cy) ==> nb[cy, cx] == PartialCell(g, stone, x, y, i, cx, cy)
    modifies nb
    ensures forall cx, cy :: InBounds(cx, cy) ==> nb[cy, cx] == PartialCell(g, stone, x, y, i + 1, cx, cy)
  {
    var opponent := Opponent(stone);
    ghost var h := Cells(nb);
    forall cx, cy | InBounds(cx, cy) && InSector(x, y, cx, cy, d)
      ensures h[cy][cx] == g[cy][cx]
    {
      NotFlippedInSector(g, stone, x, y, i, i, cx, cy);
    }
    assert InSector(x, y, x + d.0, y + d.1, d);
    RunAgrees(h, g, opponent, x, y, x + d.0, y + d.1, d);
    var nx, ny, flips := WalkRun(nb, opponent, x, y, d);
    assert flips == RunFrom(g, opponent, x + d.0, y + d.1, d);
    assert (nx, ny) == RunEnd(g, opponent, x + d.0, y + d.1, d);
    if InBounds(nx, ny) && nb[ny, nx] == stone {
      assert Closed(g, stone, x, y, d);
      RunFromHolds(g, opponent, x + d.0, y + d.1, d);
      assert forall k :: 0 <= k < |flips| ==> flips[k] in flips;
      TurnOver(nb, flips, stone);
      forall cx, cy | InBounds(cx, cy)
        ensures nb[cy, cx] == PartialCell(g, stone, x, y, i + 1, cx, cy)
      {
        FlipsAlongInRun(g, stone, x, y, d, cx, cy);
        PartialCellStep(g, stone, x, y, i, cx, cy);
      }
    } else {
      assert !Closed(g, stone, x, y, d);
      forall cx, cy | InBounds(cx, cy)
        ensures nb[cy, cx] == PartialCell(g, stone, x, y, i + 1, cx, cy)
      {
        PartialCellStep(g, stone, x, y, i, cx, cy);
      }
    }
  }

  /** place_stone: copies the board, puts the stone down, then flips each of
      the 8 directions in turn. The input board is not changed. */
  method PlaceStone(b: array2<int>, stone: Stone, x: int, y: int) returns (nb: array2<int>)
    requires IsBoardArray(b) && InBounds(x, y)
    ensures fresh(nb) && IsBoardArray(nb)
    ensures Cells(nb) == AfterMove(Cells(b), stone, x, y)
  {
    ghost var g := Cells(b);
    nb := new int[Size, Size]((cy, cx) requires 0 <= cy < Size && 0 <= cx < Size reads b => b[cy, cx]);
    nb[y, x] := stone;
    for i := 0 to |Directions|
      invariant forall cx, cy :: InBounds(cx, cy) ==> nb[cy, cx] == PartialCell(g, stone, x, y, i, cx, cy)
    {
      FlipDirection(nb, g, stone, x, y, i, Directions[i]);
    }
    assert forall cy :: 0 <= cy < Size ==> Cells(nb)[cy] == AfterMove(g, stone, x, y)[cy];
  }

  // ---------------------------------------------------------------------
  // What a move changes, stated by bracketed runs

  /** A cell is turned over along d exactly when it lies inside a run of
      opponent stones along d that the mover's stone brackets. */
  lemma FlipsAlongIffBracketed(g: Grid, stone: Stone, x: int, y: int, d: Dir, cx: int, cy: int)
    requires IsGrid(g)
    ensures FlipsAlong(g, stone, x, y, d, cx, cy) <==>
      exists k :: Bracketed(g, stone, x, y, d, k) && OnRay(x, y, d, k, cx, cy)
  {
    var n := RunLength(g, Opponent(stone), x + d.0, y + d.1, d);
    if FlipsAlong(g, stone, x, y, d, cx, cy) {
      assert Flanks(g, stone, x, y, d);
      FlanksBracketed(g, stone, x, y, d);
      assert Bracketed(g, stone, x, y, d, n) && OnRay(x, y, d, n, cx, cy);
    }
    if k :| Bracketed(g, stone, x, y, d, k) && OnRay(x, y, d, k, cx, cy) {
      BracketedRunLength(g, stone, x, y, d, k);
      BracketedFlanks(g, stone, x, y, d, k);
    }
  }

  /** Turned over within the first n directions means turned over along one
      of them. */
  lemma {:induction false} FlippedWithinIffSome(g: Grid, stone: Stone, x: int, y: int, n: int, cx: int, cy: int)
    requires IsGrid(g) && 0 <= n <= |Directions|
    ensures FlippedWithin(g, stone, x, y, n, cx, cy) <==>
      exists i :: 0 <= i < n && FlipsAlong(g, stone, x, y, Directions[i], cx, cy)
  {
    if n > 0 {
      FlippedWithinIffSome(g, stone, x, y, n - 1, cx, cy);
      if FlipsAlong(g, stone, x, y, Directions[n - 1], cx, cy) {
        assert 0 <= n - 1 < n;
      }
    }
  }

  /** place_stone's result cell by cell: the placed cell and every cell
      inside a bracketed run, in any direction, hold the mover's stone;
      every other cell keeps its value. */
  lemma AfterMoveCell(g: Grid, stone: Stone, x: int, y: int, cx: int, cy: int)
    requires IsGrid(g) && InBounds(cx, cy)
    ensures AfterMove(g, stone, x, y)[cy][cx] ==
      if (cx, cy) == (x, y) ||
         exists i, k :: 0 <= i < |Directions| && Bracketed(g, stone, x, y, Directions[i], k) &&
                        OnRay(x, y, Directions[i], k, cx, cy)
      then stone else g[cy][cx]
  {
    FlippedWithinIffSome(g, stone, x, y, |Directions|, cx, cy);
    forall i | 0 <= i < |Directions|
      ensures FlipsAlong(g, stone, x, y, Directions[i], cx, cy) <==>
        exists k :: Bracketed(g, stone, x, y, Directions[i], k) && OnRay(x, y, Directions[i], k, cx, cy)
    {
      FlipsAlongIffBracketed(g, stone, x, y, Directions[i], cx, cy);
    }
  }

  // ---------------------------------------------------------------------
  // Stone counts

  /** The cells a move at (x, y) turns over. */
  function Turned(g: Grid, stone: Stone, x: int, y: int): set<Pos>
    requires IsGrid(g)
  {
    set cx, cy | 0 <= cx < Size && 0 <= cy < Size && FlippedWithin(g, stone, x, y, |Directions|, cx, cy) :: (cx, cy)
  }

  /** Every cell turned over along d held an opponent stone. */
  lemma FlipsAlongHeldOpponent(g: Grid, stone: Stone, x: int, y: int, d: Dir, cx: int, cy: int)
    requires IsGrid(g) && FlipsAlong(g, stone, x, y, d, cx, cy)
    ensures InBounds(cx, cy) && g[cy][cx] == Opponent(stone)
  {
    assert x + d.0 == Offset(x, d.0, 1) && y + d.1 == Offset(y, d.1, 1);
    RunCovers(g, Opponent(stone), x, y, d, 1, Dist(x, y, cx, cy));
  }

  /** Every cell a move turns over held an opponent stone; the placed cell
      is never among them. */
  lemma TurnedHeldOpponent(g: Grid, stone: Stone, x: int, y: int)
    requires IsGrid(g)
    ensures forall p :: p in Turned(g, stone, x, y) ==> p != (x, y) && g[p.1][p.0] == Opponent(stone)
  {
    forall p | p in Turned(g, stone, x, y)
      ensures p != (x, y) && g[p.1][p.0] == Opponent(stone)
    {
      FlippedWithinIffSome(g, stone, x, y, |Directions|, p.0, p.1);
      var i :| 0 <= i < |Directions| && FlipsAlong(g, stone, x, y, Directions[i], p.0, p.1);
      FlipsAlongHeldOpponent(g, stone, x, y, Directions[i], p.0, p.1);
    }
  }

  /** A legal move turns over at least one stone. */
  lemma LegalMoveTurns(g: Grid, stone: Stone, x: int, y: int)
    requires IsGrid(g) && InBounds(x, y) && IsLegal(g, stone, x, y)
    ensures |Turned(g, stone, x, y)| >= 1
  {
    var i :| 0 <= i < |Directions| && Flanks(g, stone, x, y, Directions[i]);
    var d := Directions[i];
    DistAt(x, y, d, 1);
    assert FlipsAlong(g, stone, x, y, d, Offset(x, d.0, 1), Offset(y, d.1, 1));
    FlippedWithinIffSome(g, stone, x, y, |Directions|, Offset(x, d.0, 1), Offset(y, d.1, 1));
    FlipsAlongHeldOpponent(g, stone, x, y, d, Offset(x, d.0, 1), Offset(y, d.1, 1));
    assert (Offset(x, d.0, 1), Offset(y, d.1, 1)) in Turned(g, stone, x, y);
  }

  /** After a move onto an empty cell the mover holds what it held before,
      the placed cell and every turned stone; the opponent loses exactly the
      turned stones. */
  lemma MoveHoldings(g: Grid, stone: Stone, x: int, y: int)
    requires IsGrid(g) && InBounds(x, y) && g[y][x] == Empty
    ensures CellsHolding(AfterMove(g, stone, x, y), stone) ==
      CellsHolding(g, stone) + {(x, y)} + Turned(g, stone, x, y)
    ensures CellsHolding(AfterMove(g, stone, x, y), Opponent(stone)) ==
      CellsHolding(g, Opponent(stone)) - Turned(g, stone, x, y)
  {
    TurnedHeldOpponent(g, stone, x, y);
    MoverHoldings(g, stone, x, y);
    OpponentHoldings(g, stone, x, y);
  }

  lemma MoverHoldings(g: Grid, stone: Stone, x: int, y: int)
    requires IsGrid(g) && InBounds(x, y) && g[y][x] == Empty
    requires forall p :: p in Turned(g, stone, x, y) ==> p != (x, y) && g[p.1][p.0] == Opponent(stone)
    ensures CellsHolding(AfterMove(g, stone, x, y), stone) ==
      CellsHolding(g, stone) + {(x, y)} + Turned(g, stone, x, y)
  {
    var h := AfterMove(g, stone, x, y);
    forall p | p in CellsHolding(h, stone)
      ensures p in CellsHolding(g, stone) + {(x, y)} + Turned(g, stone, x, y)
    {
    }
    forall p | p in CellsHolding(g, stone) + {(x, y)} + Turned(g, stone, x, y)
      ensures p in CellsHolding(h, stone)
    {
    }
  }

  lemma OpponentHoldings(g: Grid, stone: Stone, x: int, y: int)
    requires IsGrid(g) && InBounds(x, y) && g[y][x] == Empty
    requires forall p :: p in Turned(g, stone, x, y) ==> p != (x, y) && g[p.1][p.0] == Opponent(stone)
    ensures CellsHolding(AfterMove(g, stone, x, y), Opponent(stone)) ==
      CellsHolding(g, Opponent(stone)) - Turned(g, stone, x, y)
  {
    var h := AfterMove(g, stone, x, y);
    forall p | p in CellsHolding(h, Opponent(stone))
      ensures p in CellsHolding(g, Opponent(stone)) - Turned(g, stone, x, y)
    {
    }
    forall p | p in CellsHolding(g, Opponent(stone)) - Turned(g, stone, x, y)
      ensures p in CellsHolding(h, Opponent(stone))
    {
    }
  }

  lemma DisjointUnionCard(a: set<Pos>, p: Pos, t: set<Pos>)
    requires p !in a && p !in t && a * t == {}
    ensures |a + {p} + t| == |a| + 1 + |t|
  {
    assert (a + {p}) * t == {};
  }

  lemma SubsetDifferenceCard(a: set<Pos>, t: set<Pos>)
    requires t <= a
    ensures |a - t| == |a| - |t|
  {
    assert (a - t) + t == a;
    assert (a - t) * t == {};
  }

  /** A legal move raises the mover's count by one plus the number of turned
      stones (so by at least two) and lowers the opponent's by the number of
      turned stones. */
  lemma MoveCounts(g: Grid, stone: Stone, x: int, y: int)
    requires IsGrid(g) && InBounds(x, y) && IsLegal(g, stone, x, y)
    ensures Count(AfterMove(g, stone, x, y), stone) == Count(g, stone) + 1 + |Turned(g, stone, x, y)|
    ensures Count(AfterMove(g, stone, x, y), Opponent(stone)) == Count(g, Opponent(stone)) - |Turned(g, stone, x, y)|
    ensures Count(AfterMove(g, stone, x, y), stone) >= Count(g, stone) + 2
  {
    var h := AfterMove(g, stone, x, y);
    var t := Turned(g, stone, x, y);
    var mine, theirs := CellsHolding(g, stone), CellsHolding(g, Opponent(stone));
    MoveHoldings(g, stone, x, y);
    TurnedHeldOpponent(g, stone, x, y);
    LegalMoveTurns(g, stone, x, y);
    CountIsCardinality(h, stone);
    CountIsCardinality(g, stone);
    CountIsCardinality(h, Opponent(stone));
    CountIsCardinality(g, Opponent(stone));
    assert t <= theirs;
    assert mine * t == {} by {
      forall p | p in t ensures p !in mine { }
    }
    DisjointUnionCard(mine, (x, y), t);
    SubsetDifferenceCard(theirs, t);
  }
}
