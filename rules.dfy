/** The rules of a move: legality by walking the 8 directions, the list of
    legal moves in row-major order, and placing a stone with its flips.
    Each operation is a method over a board array, proved equal to a pure
    function on the board's value; lemmas describe those functions by the
    runs of opponent stones they capture. */
module Rules {
  import opened Board

  /** One of the 8 compass offsets (dx, dy). */
  type Dir = d: (int, int) | -1 <= d.0 <= 1 && -1 <= d.1 <= 1 && d != (0, 0) witness (1, 0)

  /** The 8 directions, in the order the engine tries them. */
  const Directions: seq<Dir> := [(-1, -1), (-1, 0), (-1, 1), (0, -1), (0, 1), (1, -1), (1, 0), (1, 1)]

  /** Steps a walk from (nx, ny) along d can still take before it leaves the board. */
  function StepsLeft(nx: int, ny: int, d: Dir): int {
    if d.0 == 1 then Size - nx
    else if d.0 == -1 then nx + 1
    else if d.1 == 1 then Size - ny
    else ny + 1
  }

  /** The coordinate i steps from c along the offset dc in {-1, 0, 1}. */
  function Offset(c: int, dc: int, i: int): int {
    if dc == 1 then c + i else if dc == -1 then c - i else c
  }

  /** One more step along dc moves the coordinate by dc. */
  lemma OffsetStep(c: int, dc: int, i: int)
    requires -1 <= dc <= 1
    ensures Offset(c, dc, i + 1) == Offset(c, dc, i) + dc
  {
  }

  /** The cells a walk from (nx, ny) along d passes over while the cell is
      on the board and holds `opp`, nearest first. */
  function RunFrom(g: Grid, opp: int, nx: int, ny: int, d: Dir): seq<Pos>
    requires IsGrid(g)
    decreases StepsLeft(nx, ny, d)
  {
    if InBounds(nx, ny) && g[ny][nx] == opp then [(nx, ny)] + RunFrom(g, opp, nx + d.0, ny + d.1, d)
    else []
  }

  /** How many cells that walk passes over. */
  function RunLength(g: Grid, opp: int, nx: int, ny: int, d: Dir): nat
    requires IsGrid(g)
  {
    |RunFrom(g, opp, nx, ny, d)|
  }

  /** The cell where that walk stops: the first one that is off the board
      or does not hold `opp`. */
  function RunEnd(g: Grid, opp: int, nx: int, ny: int, d: Dir): Pos
    requires IsGrid(g)
    decreases StepsLeft(nx, ny, d)
  {
    if InBounds(nx, ny) && g[ny][nx] == opp then RunEnd(g, opp, nx + d.0, ny + d.1, d)
    else (nx, ny)
  }

  /** The run of opponent stones seen from (x, y) along d is followed, on the
      board, by a stone of the mover (the run may be empty). */
  predicate Closed(g: Grid, stone: Stone, x: int, y: int, d: Dir)
    requires IsGrid(g)
  {
    var e := RunEnd(g, Opponent(stone), x + d.0, y + d.1, d);
    InBounds(e.0, e.1) && g[e.1][e.0] == stone
  }

  /** Seen from (x, y), direction d holds at least one opponent stone,
      followed on the board by a stone of the mover. */
  predicate Flanks(g: Grid, stone: Stone, x: int, y: int, d: Dir)
    requires IsGrid(g)
  {
    RunLength(g, Opponent(stone), x + d.0, y + d.1, d) > 0 && Closed(g, stone, x, y, d)
  }

  /** A move at (x, y) is legal: the cell is empty and some direction flanks. */
  predicate IsLegal(g: Grid, stone: Stone, x: int, y: int)
    requires IsGrid(g) && InBounds(x, y)
  {
    g[y][x] == Empty && exists i :: 0 <= i < |Directions| && Flanks(g, stone, x, y, Directions[i])
  }

  /** The side has a legal move somewhere on the board. */
  predicate HasMove(g: Grid, stone: Stone)
    requires IsGrid(g)
  {
    exists x, y :: 0 <= x < Size && 0 <= y < Size && IsLegal(g, stone, x, y)
  }

  // ---------------------------------------------------------------------
  // Runs of opponent stones, stated without walking

  /** The cells 1..k steps from (x, y) along d are on the board and hold the
      opponent, and the cell k+1 steps away is on the board and holds `stone`. */
  predicate Bracketed(g: Grid, stone: Stone, x: int, y: int, d: Dir, k: int)
    requires IsGrid(g)
  {
    && k >= 1
    && (forall i :: 1 <= i <= k ==>
          InBounds(Offset(x, d.0, i), Offset(y, d.1, i)) &&
          g[Offset(y, d.1, i)][Offset(x, d.0, i)] == Opponent(stone))
    && InBounds(Offset(x, d.0, k + 1), Offset(y, d.1, k + 1))
    && g[Offset(y, d.1, k + 1)][Offset(x, d.0, k + 1)] == stone
  }

  /** Every cell a walk passes over is on the board and holds `opp`. */
  lemma {:induction false} RunFromHolds(g: Grid, opp: int, nx: int, ny: int, d: Dir)
    requires IsGrid(g)
    ensures forall p {:trigger p in RunFrom(g, opp, nx, ny, d)} :: p in RunFrom(g, opp, nx, ny, d) ==> InBounds(p.0, p.1) && g[p.1][p.0] == opp
    decreases StepsLeft(nx, ny, d)
  {
    if InBounds(nx, ny) && g[ny][nx] == opp {
      RunFromHolds(g, opp, nx + d.0, ny + d.1, d);
    }
  }

  /** A walk stops on a cell that is off the board or does not hold `opp`. */
  lemma {:induction false} RunEndStops(g: Grid, opp: int, nx: int, ny: int, d: Dir)
    requires IsGrid(g)
    ensures !(InBounds(RunEnd(g, opp, nx, ny, d).0, RunEnd(g, opp, nx, ny, d).1) &&
              g[RunEnd(g, opp, nx, ny, d).1][RunEnd(g, opp, nx, ny, d).0] == opp)
    decreases StepsLeft(nx, ny, d)
  {
    if InBounds(nx, ny) && g[ny][nx] == opp {
      RunEndStops(g, opp, nx + d.0, ny + d.1, d);
    }
  }

  /** A walk from j steps out passes over the cells j, j+1, ... steps out, in
      that order. */
  lemma {:induction false} RunCellsAt(g: Grid, opp: int, x: int, y: int, d: Dir, j: int)
    requires IsGrid(g)
    ensures forall t :: 0 <= t < |RunFrom(g, opp, Offset(x, d.0, j), Offset(y, d.1, j), d)| ==>
      RunFrom(g, opp, Offset(x, d.0, j), Offset(y, d.1, j), d)[t] == (Offset(x, d.0, j + t), Offset(y, d.1, j + t))
    decreases StepsLeft(Offset(x, d.0, j), Offset(y, d.1, j), d)
  {
    var nx, ny := Offset(x, d.0, j), Offset(y, d.1, j);
    if InBounds(nx, ny) && g[ny][nx] == opp {
      OffsetStep(x, d.0, j);
      OffsetStep(y, d.1, j);
      RunCellsAt(g, opp, x, y, d, j + 1);
      var run, rest := RunFrom(g, opp, nx, ny, d), RunFrom(g, opp, nx + d.0, ny + d.1, d);
      assert run == [(nx, ny)] + rest;
      assert rest == RunFrom(g, opp, Offset(x, d.0, j + 1), Offset(y, d.1, j + 1), d);
      forall t | 1 <= t < |run|
        ensures run[t] == (Offset(x, d.0, j + t), Offset(y, d.1, j + t))
      {
        assert run[t] == rest[t - 1];
      }
    }
  }

  /** A walk from j steps out that passes n cells passes over the cell i
      steps out for every j <= i < j + n. */
  lemma {:induction false} RunCovers(g: Grid, opp: int, x: int, y: int, d: Dir, j: int, i: int)
    requires IsGrid(g)
    requires j <= i < j + RunLength(g, opp, Offset(x, d.0, j), Offset(y, d.1, j), d)
    ensures InBounds(Offset(x, d.0, i), Offset(y, d.1, i)) && g[Offset(y, d.1, i)][Offset(x, d.0, i)] == opp
    decreases i - j
  {
    if i > j {
      OffsetStep(x, d.0, j);
      OffsetStep(y, d.1, j);
      RunCovers(g, opp, x, y, d, j + 1, i);
    }
  }

  /** A walk from j steps out that passes n cells stops j + n steps out. */
  lemma {:induction false} RunEndAt(g: Grid, opp: int, x: int, y: int, d: Dir, j: int)
    requires IsGrid(g)
    ensures RunEnd(g, opp, Offset(x, d.0, j), Offset(y, d.1, j), d) ==
      (Offset(x, d.0, j + RunLength(g, opp, Offset(x, d.0, j), Offset(y, d.1, j), d)),
       Offset(y, d.1, j + RunLength(g, opp, Offset(x, d.0, j), Offset(y, d.1, j), d)))
    decreases StepsLeft(Offset(x, d.0, j), Offset(y, d.1, j), d)
  {
    var nx, ny := Offset(x, d.0, j), Offset(y, d.1, j);
    if InBounds(nx, ny) && g[ny][nx] == opp {
      OffsetStep(x, d.0, j);
      OffsetStep(y, d.1, j);
      RunEndAt(g, opp, x, y, d, j + 1);
    }
  }

  /** A walk from j steps out over opponent stones that lie j .. k steps out,
      followed by a cell that is off the board or not the opponent's, passes
      exactly k + 1 - j stones. */
  lemma {:induction false} RunLengthOfBracket(g: Grid, opp: int, x: int, y: int, d: Dir, j: int, k: int)
    requires IsGrid(g) && j <= k + 1
    requires forall i :: j <= i <= k ==>
      InBounds(Offset(x, d.0, i), Offset(y, d.1, i)) && g[Offset(y, d.1, i)][Offset(x, d.0, i)] == opp
    requires !(InBounds(Offset(x, d.0, k + 1), Offset(y, d.1, k + 1)) &&
      g[Offset(y, d.1, k + 1)][Offset(x, d.0, k + 1)] == opp)
    ensures RunLength(g, opp, Offset(x, d.0, j), Offset(y, d.1, j), d) == k + 1 - j
    decreases k + 1 - j
  {
    if j <= k {
      OffsetStep(x, d.0, j);
      OffsetStep(y, d.1, j);
      RunLengthOfBracket(g, opp, x, y, d, j + 1, k);
    }
  }

  /** A bracketed run of length k is exactly the run walked from one step out. */
  lemma BracketedRunLength(g: Grid, stone: Stone, x: int, y: int, d: Dir, k: int)
    requires IsGrid(g) && Bracketed(g, stone, x, y, d, k)
    ensures RunLength(g, Opponent(stone), x + d.0, y + d.1, d) == k
  {
    RunLengthOfBracket(g, Opponent(stone), x, y, d, 1, k);
  }

  /** A flanking direction brackets its run of opponent stones. */
  lemma FlanksBracketed(g: Grid, stone: Stone, x: int, y: int, d: Dir)
    requires IsGrid(g) && Flanks(g, stone, x, y, d)
    ensures Bracketed(g, stone, x, y, d, RunLength(g, Opponent(stone), x + d.0, y + d.1, d))
  {
    var opp := Opponent(stone);
    var n := RunLength(g, opp, x + d.0, y + d.1, d);
    assert x + d.0 == Offset(x, d.0, 1) && y + d.1 == Offset(y, d.1, 1);
    RunEndAt(g, opp, x, y, d, 1);
    forall i | 1 <= i <= n
      ensures InBounds(Offset(x, d.0, i), Offset(y, d.1, i)) && g[Offset(y, d.1, i)][Offset(x, d.0, i)] == opp
    {
      RunCovers(g, opp, x, y, d, 1, i);
    }
  }

  /** A bracketed run makes its direction flank. */
  lemma BracketedFlanks(g: Grid, stone: Stone, x: int, y: int, d: Dir, k: int)
    requires IsGrid(g) && Bracketed(g, stone, x, y, d, k)
    ensures Flanks(g, stone, x, y, d)
  {
    var opp := Opponent(stone);
    BracketedRunLength(g, stone, x, y, d, k);
    assert x + d.0 == Offset(x, d.0, 1) && y + d.1 == Offset(y, d.1, 1);
    RunEndAt(g, opp, x, y, d, 1);
  }

  /** Walking from one step out flanks exactly when some run of opponent
      stones is bracketed by a stone of the mover. */
  lemma FlanksIffBracketed(g: Grid, stone: Stone, x: int, y: int, d: Dir)
    requires IsGrid(g)
    ensures Flanks(g, stone, x, y, d) <==> exists k :: Bracketed(g, stone, x, y, d, k)
  {
    if Flanks(g, stone, x, y, d) {
      FlanksBracketed(g, stone, x, y, d);
    }
    if k :| Bracketed(g, stone, x, y, d, k) {
      BracketedFlanks(g, stone, x, y, d, k);
    }
  }

  /** Legality stated by runs: the cell is empty and in some direction a run
      of at least one opponent stone is closed on the board by the mover's. */
  lemma IsLegalIffBracketed(g: Grid, stone: Stone, x: int, y: int)
    requires IsGrid(g) && InBounds(x, y)
    ensures IsLegal(g, stone, x, y) <==>
      g[y][x] == Empty && exists i, k :: 0 <= i < |Directions| && Bracketed(g, stone, x, y, Directions[i], k)
  {
    forall i | 0 <= i < |Directions|
      ensures Flanks(g, stone, x, y, Directions[i]) <==> exists k :: Bracketed(g, stone, x, y, Directions[i], k)
    {
      FlanksIffBracketed(g, stone, x, y, Directions[i]);
    }
  }

  /** One more step of a walk that is on an opponent stone. */
  lemma RunStep(g: Grid, opp: int, nx: int, ny: int, d: Dir)
    requires IsGrid(g) && InBounds(nx, ny) && g[ny][nx] == opp
    ensures RunFrom(g, opp, nx, ny, d) == [(nx, ny)] + RunFrom(g, opp, nx + d.0, ny + d.1, d)
    ensures RunEnd(g, opp, nx, ny, d) == RunEnd(g, opp, nx + d.0, ny + d.1, d)
  {
  }

  /** The walk of can_place_x_y and place_stone: starting one step from
      (x, y) along d, pass over the opponent's stones. Returns the cell where
      the walk stops and the stones passed, nearest first. */
  method WalkRun(b: array2<int>, opp: int, x: int, y: int, d: Dir) returns (nx: int, ny: int, run: seq<Pos>)
    requires IsBoardArray(b)
    ensures (nx, ny) == RunEnd(Cells(b), opp, x + d.0, y + d.1, d)
    ensures run == RunFrom(Cells(b), opp, x + d.0, y + d.1, d)
  {
    ghost var g := Cells(b);
    nx, ny := x + d.0, y + d.1;
    run := [];
    while InBounds(nx, ny) && b[ny, nx] == opp
      invariant RunFrom(g, opp, x + d.0, y + d.1, d) == run + RunFrom(g, opp, nx, ny, d)
      invariant RunEnd(g, opp, x + d.0, y + d.1, d) == RunEnd(g, opp, nx, ny, d)
      decreases |RunFrom(g, opp, nx, ny, d)|
    {
      RunStep(g, opp, nx, ny, d);
      assert run + RunFrom(g, opp, nx, ny, d) == (run + [(nx, ny)]) + RunFrom(g, opp, nx + d.0, ny + d.1, d);
      run := run + [(nx, ny)];
      nx, ny := nx + d.0, ny + d.1;
    }
  }

  /** A walk from (x, y) along d that passed n opponent stones and stopped
      at (nx, ny) flanks exactly when n > 0 and the mover holds (nx, ny). */
  lemma FlanksByWalk(g: Grid, stone: Stone, x: int, y: int, d: Dir, nx: int, ny: int, n: int)
    requires IsGrid(g)
    requires (nx, ny) == RunEnd(g, Opponent(stone), x + d.0, y + d.1, d)
    requires n == RunLength(g, Opponent(stone), x + d.0, y + d.1, d)
    ensures Flanks(g, stone, x, y, d) <==> n > 0 && InBounds(nx, ny) && g[ny][nx] == stone
  {
  }

  /** can_place_x_y: walks each direction over opponent stones and answers
      whether some walk passed at least one and stopped on the mover's. */
  method CanPlaceXY(b: array2<int>, stone: Stone, x: int, y: int) returns (ok: bool)
    requires IsBoardArray(b) && InBounds(x, y)
    ensures ok == IsLegal(Cells(b), stone, x, y)
  {
    ghost var g := Cells(b);
    if b[y, x] != Empty {
      return false;
    }
    var opponent := Opponent(stone);
    for i := 0 to |Directions|
      invariant forall j :: 0 <= j < i ==> !Flanks(g, stone, x, y, Directions[j])
    {
      var d := Directions[i];
      var nx, ny, run := WalkRun(b, opponent, x, y, d);
      var foundOpponent := |run| > 0;
      FlanksByWalk(g, stone, x, y, d, nx, ny, |run|);
      if foundOpponent && InBounds(nx, ny) && b[ny, nx] == stone {
        return true;
      }
    }
    return false;
  }

  /** can_place: scans the board in row-major order for a legal cell. */
  method CanPlace(b: array2<int>, stone: Stone) returns (ok: bool)
    requires IsBoardArray(b)
    ensures ok == HasMove(Cells(b), stone)
  {
    ghost var g := Cells(b);
    for y := 0 to Size
      invariant forall cx, cy :: 0 <= cx < Size && 0 <= cy < y ==> !IsLegal(g, stone, cx, cy)
    {
      for x := 0 to Size
        invariant forall cx, cy :: 0 <= cx < Size && 0 <= cy < y ==> !IsLegal(g, stone, cx, cy)
        invariant forall cx :: 0 <= cx < x ==> !IsLegal(g, stone, cx, y)
      {
        ok := CanPlaceXY(b, stone, x, y);
        if ok {
          return;
        }
      }
    }
    return false;
  }

  /** (x, y) comes before (x', y') when scanning rows top to bottom and each
      row left to right. */
  predicate RowMajorBefore(p: Pos, q: Pos) {
    p.1 < q.1 || (p.1 == q.1 && p.0 < q.0)
  }

  /** A 6x6 table of flags, read as mask[y][x]. */
  predicate IsMask(mask: seq<seq<bool>>) {
    |mask| == Size && forall y :: 0 <= y < Size ==> |mask[y]| == Size
  }

  /** Which cells are legal moves for `stone`. */
  function LegalCells(g: Grid, stone: Stone): (mask: seq<seq<bool>>)
    requires IsGrid(g)
    ensures IsMask(mask)
    ensures forall x, y :: InBounds(x, y) ==> mask[y][x] == IsLegal(g, stone, x, y)
  {
    seq(Size, y requires 0 <= y < Size =>
      seq(Size, x requires 0 <= x < Size => IsLegal(g, stone, x, y)))
  }

  /** The flagged cells among the first n cells of row y, left to right. */
  function RowMoves(mask: seq<seq<bool>>, y: int, n: int): (m: seq<Pos>)
    requires IsMask(mask) && 0 <= y < Size && 0 <= n <= Size
  {
    if n == 0 then []
    else RowMoves(mask, y, n - 1) + (if mask[y][n - 1] then [(n - 1, y)] else [])
  }

  /** The flagged cells in the first n rows, in row-major order. */
  function MovesBefore(mask: seq<seq<bool>>, n: int): (m: seq<Pos>)
    requires IsMask(mask) && 0 <= n <= Size
  {
    if n == 0 then []
    else
      MovesBefore(mask, n - 1) + RowMoves(mask, n - 1, Size)
  }

  /** The legal moves, scanning rows top to bottom and each row left to right. */
  function ValidMoves(g: Grid, stone: Stone): (m: seq<Pos>)
    requires IsGrid(g)
  {
    MovesBefore(LegalCells(g, stone), Size)
  }

  /** The flagged cells of row y among the first n. */
  lemma {:induction false} RowMovesMembers(mask: seq<seq<bool>>, y: int, n: int)
    requires IsMask(mask) && 0 <= y < Size && 0 <= n <= Size
    ensures forall p {:trigger p in RowMoves(mask, y, n)} :: p in RowMoves(mask, y, n) <==> 0 <= p.0 < n && p.1 == y && mask[p.1][p.0]
  {
    if n > 0 {
      RowMovesMembers(mask, y, n - 1);
    }
  }

  /** Those cells come in increasing x. */
  lemma {:induction false} RowMovesOrdered(mask: seq<seq<bool>>, y: int, n: int)
    requires IsMask(mask) && 0 <= y < Size && 0 <= n <= Size
    ensures forall i, j :: 0 <= i < j < |RowMoves(mask, y, n)| ==> RowMoves(mask, y, n)[i].0 < RowMoves(mask, y, n)[j].0
  {
    if n > 0 {
      RowMovesOrdered(mask, y, n - 1);
      RowMovesMembers(mask, y, n - 1);
      var m, prev := RowMoves(mask, y, n), RowMoves(mask, y, n - 1);
      if mask[y][n - 1] {
        assert m == prev + [(n - 1, y)];
        forall i, j | 0 <= i < j < |m|
          ensures m[i].0 < m[j].0
        {
          assert m[i] == prev[i];
          if j == |prev| {
            assert prev[i] in prev;
          } else {
            assert m[j] == prev[j];
          }
        }
      } else {
        assert m == prev;
      }
    }
  }

  /** The flagged cells of the first n rows. */
  lemma {:induction false} MovesBeforeMembers(mask: seq<seq<bool>>, n: int)
    requires IsMask(mask) && 0 <= n <= Size
    ensures forall p {:trigger p in MovesBefore(mask, n)} :: p in MovesBefore(mask, n) <==> 0 <= p.0 < Size && 0 <= p.1 < n && mask[p.1][p.0]
  {
    if n > 0 {
      MovesBeforeMembers(mask, n - 1);
      RowMovesMembers(mask, n - 1, Size);
    }
  }

  /** Those cells come in row-major order. */
  lemma {:induction false} MovesBeforeOrdered(mask: seq<seq<bool>>, n: int)
    requires IsMask(mask) && 0 <= n <= Size
    ensures forall i, j :: 0 <= i < j < |MovesBefore(mask, n)| ==> RowMajorBefore(MovesBefore(mask, n)[i], MovesBefore(mask, n)[j])
  {
    if n > 0 {
      MovesBeforeOrdered(mask, n - 1);
      MovesBeforeMembers(mask, n - 1);
      RowMovesMembers(mask, n - 1, Size);
      RowMovesOrdered(mask, n - 1, Size);
      var prev, row := MovesBefore(mask, n - 1), RowMoves(mask, n - 1, Size);
      assert forall i :: 0 <= i < |row| ==> row[i] in row;
      assert forall i :: 0 <= i < |prev| ==> prev[i] in prev;
    }
  }

  /** get_valid_moves returns exactly the legal cells, each once, in
      row-major order (y outer, x inner). */
  lemma ValidMovesSpec(g: Grid, stone: Stone)
    requires IsGrid(g)
    ensures forall p {:trigger p in ValidMoves(g, stone)} :: p in ValidMoves(g, stone) <==> InBounds(p.0, p.1) && IsLegal(g, stone, p.0, p.1)
    ensures forall i, j :: 0 <= i < j < |ValidMoves(g, stone)| ==>
      RowMajorBefore(ValidMoves(g, stone)[i], ValidMoves(g, stone)[j]) && ValidMoves(g, stone)[i] != ValidMoves(g, stone)[j]
  {
    MovesBeforeMembers(LegalCells(g, stone), Size);
    MovesBeforeOrdered(LegalCells(g, stone), Size);
  }

  /** Where a legal move sits in the list of legal moves. */
  lemma IndexOfLegal(g: Grid, stone: Stone, x: int, y: int) returns (i: nat)
    requires IsGrid(g) && InBounds(x, y) && IsLegal(g, stone, x, y)
    ensures i < |ValidMoves(g, stone)| && ValidMoves(g, stone)[i] == (x, y)
  {
    ValidMovesSpec(g, stone);
    assert (x, y) in ValidMoves(g, stone);
    i :| 0 <= i < |ValidMoves(g, stone)| && ValidMoves(g, stone)[i] == (x, y);
  }

  /** Every entry of the list of legal moves is a legal move. */
  lemma LegalAtIndex(g: Grid, stone: Stone, i: int)
    requires IsGrid(g) && 0 <= i < |ValidMoves(g, stone)|
    ensures InBounds(ValidMoves(g, stone)[i].0, ValidMoves(g, stone)[i].1)
    ensures IsLegal(g, stone, ValidMoves(g, stone)[i].0, ValidMoves(g, stone)[i].1)
  {
    ValidMovesSpec(g, stone);
    assert ValidMoves(g, stone)[i] in ValidMoves(g, stone);
  }

  /** Positions in the list of legal moves follow row-major order. */
  lemma IndexOrder(g: Grid, stone: Stone, j: int, k: int)
    requires IsGrid(g) && 0 <= j < |ValidMoves(g, stone)| && 0 <= k < |ValidMoves(g, stone)|
    requires RowMajorBefore(ValidMoves(g, stone)[j], ValidMoves(g, stone)[k])
    ensures j < k
  {
    ValidMovesSpec(g, stone);
  }

  /** One more cell of the row-major scan appends that cell exactly when it
      is flagged. */
  lemma ScanStep(mask: seq<seq<bool>>, y: int, x: int)
    requires IsMask(mask) && 0 <= y < Size && 0 <= x < Size
    ensures mask[y][x] ==>
      (MovesBefore(mask, y) + RowMoves(mask, y, x + 1) == (MovesBefore(mask, y) + RowMoves(mask, y, x)) + [(x, y)])
    ensures !mask[y][x] ==>
      (MovesBefore(mask, y) + RowMoves(mask, y, x + 1) == MovesBefore(mask, y) + RowMoves(mask, y, x))
  {
  }

  /** can_place agrees with get_valid_moves: a move exists exactly when the
      list of legal moves is not empty. */
  lemma HasMoveIffValidMoves(g: Grid, stone: Stone)
    requires IsGrid(g)
    ensures HasMove(g, stone) <==> ValidMoves(g, stone) != []
  {
    if HasMove(g, stone) {
      var x, y :| 0 <= x < Size && 0 <= y < Size && IsLegal(g, stone, x, y);
      var i := IndexOfLegal(g, stone, x, y);
    }
    if ValidMoves(g, stone) != [] {
      LegalAtIndex(g, stone, 0);
      var p := ValidMoves(g, stone)[0];
      assert 0 <= p.0 < Size && 0 <= p.1 < Size && IsLegal(g, stone, p.0, p.1);
    }
  }

  /** get_valid_moves: appends every legal cell, scanning in row-major order. */
  method GetValidMoves(b: array2<int>, stone: Stone) returns (moves: seq<Pos>)
    requires IsBoardArray(b)
    ensures moves == ValidMoves(Cells(b), stone)
  {
    ghost var legal := LegalCells(Cells(b), stone);
    moves := [];
    for y := 0 to Size
      invariant moves == MovesBefore(legal, y)
    {
      for x := 0 to Size
        invariant moves == MovesBefore(legal, y) + RowMoves(legal, y, x)
      {
        var ok := CanPlaceXY(b, stone, x, y);
        if ok {
          moves := moves + [(x, y)];
        }
      }
    }
  }
}
