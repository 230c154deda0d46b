/** The game-tree search: minimax to a fixed depth over the legal moves,
    scoring leaves with the risk-adjusted evaluation.

    The search passes its side argument on exactly as the engine does: a
    maximising level places `stone` and hands `Opponent(stone)` to the
    minimising level below; a minimising level places `Opponent(stone)` and
    hands `stone` back. So below a maximising level the same side moves
    again, and leaves are scored for whichever side the level below holds. */
module Search {
  import opened Common
  import opened Board
  import opened Rules
  import opened Placement
  import opened Scoring

  /** minimax's value for a position. A level is a leaf when the depth is
      used up or neither side has a legal move. */
  function MinimaxValue(g: Grid, stone: Stone, depth: nat, isMax: bool): ExtInt
    requires IsGrid(g)
    decreases depth, 3
  {
    if depth == 0 || (ValidMoves(g, stone) == [] && ValidMoves(g, Opponent(stone)) == []) then
      Fin(RiskScore(g, stone))
    else if isMax then
      MaxOf(MaxChildren(g, stone, depth, ValidMoves(g, stone)))
    else
      MinOf(MinChildren(g, stone, depth, ValidMoves(g, Opponent(stone))))
  }

  /** The value a maximising level sees for `stone` playing m. */
  function MaxChild(g: Grid, stone: Stone, depth: nat, m: Pos): ExtInt
    requires IsGrid(g) && depth >= 1
    decreases depth, 0
  {
    MinimaxValue(AfterMove(g, stone, m.0, m.1), Opponent(stone), depth - 1, false)
  }

  /** The value a minimising level sees for the opponent playing m. */
  function MinChild(g: Grid, stone: Stone, depth: nat, m: Pos): ExtInt
    requires IsGrid(g) && depth >= 1
    decreases depth, 0
  {
    MinimaxValue(AfterMove(g, Opponent(stone), m.0, m.1), stone, depth - 1, true)
  }

  /** The values of the moves, in list order, at a maximising level. */
  function MaxChildren(g: Grid, stone: Stone, depth: nat, moves: seq<Pos>): seq<ExtInt>
    requires IsGrid(g) && depth >= 1
    decreases depth, 1
  {
    seq(|moves|, i requires 0 <= i < |moves| => MaxChild(g, stone, depth, moves[i]))
  }

  /** The values of the moves, in list order, at a minimising level. */
  function MinChildren(g: Grid, stone: Stone, depth: nat, moves: seq<Pos>): seq<ExtInt>
    requires IsGrid(g) && depth >= 1
    decreases depth, 1
  {
    seq(|moves|, i requires 0 <= i < |moves| => MinChild(g, stone, depth, moves[i]))
  }

  // ---------------------------------------------------------------------
  // The search as the engine runs it

  /** minimax. */
  method Minimax(b: array2<int>, stone: Stone, depth: nat, isMax: bool) returns (v: ExtInt)
    requires IsBoardArray(b)
    ensures v == MinimaxValue(Cells(b), stone, depth, isMax)
    decreases depth, 4
  {
    var opponent := Opponent(stone);
    var leaf := depth == 0;
    if !leaf {
      var mine := CanPlace(b, stone);
      if !mine {
        var theirs := CanPlace(b, opponent);
        leaf := !theirs;
      }
    }
    HasMoveIffValidMoves(Cells(b), stone);
    HasMoveIffValidMoves(Cells(b), opponent);
    if leaf {
      var score := EvaluateWithRisk(b, stone);
      return Fin(score);
    }
    if isMax {
      v := MaxLevel(b, stone, depth);
    } else {
      v := MinLevel(b, stone, depth);
    }
  }

  /** minimax's maximising branch: tries every legal move of `stone` in
      row-major order and keeps the largest value. */
  method MaxLevel(b: array2<int>, stone: Stone, depth: nat) returns (v: ExtInt)
    requires IsBoardArray(b) && depth >= 1
    ensures v == MaxOf(MaxChildren(Cells(b), stone, depth, ValidMoves(Cells(b), stone)))
    decreases depth, 3
  {
    ghost var legal := LegalCells(Cells(b), stone);
    v := NegInf;
    for y := 0 to Size
      invariant v == MaxOf(MaxChildren(Cells(b), stone, depth, MovesBefore(legal, y)))
    {
      v := MaxRow(b, stone, depth, y, v);
    }
  }

  /** One row of the maximising scan, left to right, continuing from the
      running maximum v0 of the rows above. */
  method MaxRow(b: array2<int>, stone: Stone, depth: nat, y: int, v0: ExtInt) returns (v: ExtInt)
    requires IsBoardArray(b) && depth >= 1 && 0 <= y < Size
    requires v0 == MaxOf(MaxChildren(Cells(b), stone, depth, MovesBefore(LegalCells(Cells(b), stone), y)))
    ensures v == MaxOf(MaxChildren(Cells(b), stone, depth, MovesBefore(LegalCells(Cells(b), stone), y + 1)))
    decreases depth, 2
  {
    ghost var g := Cells(b);
    ghost var legal := LegalCells(g, stone);
    v := v0;
    assert MovesBefore(legal, y) + RowMoves(legal, y, 0) == MovesBefore(legal, y);
    for x := 0 to Size
      invariant v == MaxOf(MaxChildren(g, stone, depth, MovesBefore(legal, y) + RowMoves(legal, y, x)))
    {
      v := MaxCell(b, stone, depth, x, y, MovesBefore(legal, y) + RowMoves(legal, y, x), v);
      ScanStep(legal, y, x);
    }
  }

  /** One cell of the maximising scan: if the cell is a legal move, its
      value is folded into the running maximum v0 of the moves `done`
      tried before it. */
  method MaxCell(b: array2<int>, stone: Stone, depth: nat, x: int, y: int, ghost done: seq<Pos>, v0: ExtInt)
    returns (v: ExtInt)
    requires IsBoardArray(b) && depth >= 1 && InBounds(x, y)
    requires v0 == MaxOf(MaxChildren(Cells(b), stone, depth, done))
    ensures LegalCells(Cells(b), stone)[y][x] ==> v == MaxOf(MaxChildren(Cells(b), stone, depth, done + [(x, y)]))
    ensures !LegalCells(Cells(b), stone)[y][x] ==> v == v0
    decreases depth, 1
  {
    v := v0;
    var ok := CanPlaceXY(b, stone, x, y);
    if ok {
      var e := SearchMaxChild(b, stone, depth, x, y);
      MaxChildrenAppend(Cells(b), stone, depth, done, (x, y));
      MaxOfAppend(MaxChildren(Cells(b), stone, depth, done), e);
      v := Max(v, e);
    }
  }

  /** The body of the maximising scan for a legal move: play it on a copy
      and search the result one level shallower. */
  method SearchMaxChild(b: array2<int>, stone: Stone, depth: nat, x: int, y: int) returns (e: ExtInt)
    requires IsBoardArray(b) && depth >= 1 && InBounds(x, y)
    ensures e == MaxChild(Cells(b), stone, depth, (x, y))
    decreases depth, 0
  {
    var nb := PlaceStone(b, stone, x, y);
    e := Minimax(nb, Opponent(stone), depth - 1, false);
  }

  /** minimax's minimising branch: tries every legal move of the opponent
      in row-major order and keeps the smallest value. */
  method MinLevel(b: array2<int>, stone: Stone, depth: nat) returns (v: ExtInt)
    requires IsBoardArray(b) && depth >= 1
    ensures v == MinOf(MinChildren(Cells(b), stone, depth, ValidMoves(Cells(b), Opponent(stone))))
    decreases depth, 3
  {
    ghost var legal := LegalCells(Cells(b), Opponent(stone));
    v := PosInf;
    for y := 0 to Size
      invariant v == MinOf(MinChildren(Cells(b), stone, depth, MovesBefore(legal, y)))
    {
      v := MinRow(b, stone, depth, y, v);
    }
  }

  /** One row of the minimising scan, left to right, continuing from the
      running minimum v0 of the rows above. */
  method MinRow(b: array2<int>, stone: Stone, depth: nat, y: int, v0: ExtInt) returns (v: ExtInt)
    requires IsBoardArray(b) && depth >= 1 && 0 <= y < Size
    requires v0 == MinOf(MinChildren(Cells(b), stone, depth, MovesBefore(LegalCells(Cells(b), Opponent(stone)), y)))
    ensures v == MinOf(MinChildren(Cells(b), stone, depth, MovesBefore(LegalCells(Cells(b), Opponent(stone)), y + 1)))
    decreases depth, 2
  {
    ghost var g := Cells(b);
    ghost var legal := LegalCells(g, Opponent(stone));
    v := v0;
    assert MovesBefore(legal, y) + RowMoves(legal, y, 0) == MovesBefore(legal, y);
    for x := 0 to Size
      invariant v == MinOf(MinChildren(g, stone, depth, MovesBefore(legal, y) + RowMoves(legal, y, x)))
    {
      v := MinCell(b, stone, depth, x, y, MovesBefore(legal, y) + RowMoves(legal, y, x), v);
      ScanStep(legal, y, x);
    }
  }

  /** One cell of the minimising scan: if the cell is a legal move, its
      value is folded into the running minimum v0 of the moves `done`
      tried before it. */
  method MinCell(b: array2<int>, stone: Stone, depth: nat, x: int, y: int, ghost done: seq<Pos>, v0: ExtInt)
    returns (v: ExtInt)
    requires IsBoardArray(b) && depth >= 1 && InBounds(x, y)
    requires v0 == MinOf(MinChildren(Cells(b), stone, depth, done))
    ensures LegalCells(Cells(b), Opponent(stone))[y][x] ==> v == MinOf(MinChildren(Cells(b), stone, depth, done + [(x, y)]))
    ensures !LegalCells(Cells(b), Opponent(stone))[y][x] ==> v == v0
    decreases depth, 1
  {
    v := v0;
    var ok := CanPlaceXY(b, Opponent(stone), x, y);
    if ok {
      var e := SearchMinChild(b, stone, depth, x, y);
      MinChildrenAppend(Cells(b), stone, depth, done, (x, y));
      MinOfAppend(MinChildren(Cells(b), stone, depth, done), e);
      v := Min(v, e);
    }
  }

  /** The body of the minimising scan for a legal move of the opponent:
      play it on a copy and search the result one level shallower. */
  method SearchMinChild(b: array2<int>, stone: Stone, depth: nat, x: int, y: int) returns (e: ExtInt)
    requires IsBoardArray(b) && depth >= 1 && InBounds(x, y)
    ensures e == MinChild(Cells(b), stone, depth, (x, y))
    decreases depth, 0
  {
    var nb := PlaceStone(b, Opponent(stone), x, y);
    e := Minimax(nb, stone, depth - 1, true);
  }

  lemma MaxChildrenAppend(g: Grid, stone: Stone, depth: nat, moves: seq<Pos>, m: Pos)
    requires IsGrid(g) && depth >= 1
    ensures MaxChildren(g, stone, depth, moves + [m]) ==
      MaxChildren(g, stone, depth, moves) + [MaxChild(g, stone, depth, m)]
  {
  }

  lemma MinChildrenAppend(g: Grid, stone: Stone, depth: nat, moves: seq<Pos>, m: Pos)
    requires IsGrid(g) && depth >= 1
    ensures MinChildren(g, stone, depth, moves + [m]) ==
      MinChildren(g, stone, depth, moves) + [MinChild(g, stone, depth, m)]
  {
  }

  // ---------------------------------------------------------------------
  // What the search computes

  /** A level is a leaf, scored by the risk-adjusted evaluation for the
      side it holds, when the depth is used up or neither side can move. */
  lemma MinimaxLeaf(g: Grid, stone: Stone, depth: nat, isMax: bool)
    requires IsGrid(g)
    ensures depth == 0 || (!HasMove(g, stone) && !HasMove(g, Opponent(stone))) ==>
      MinimaxValue(g, stone, depth, isMax) == Fin(RiskScore(g, stone))
  {
    HasMoveIffValidMoves(g, stone);
    HasMoveIffValidMoves(g, Opponent(stone));
  }

  /** When only one side is blocked, a level whose own side is blocked
      returns its sentinel: -inf at a maximising level where `stone` cannot
      move, +inf at a minimising level where the opponent cannot move. */
  lemma MinimaxBlocked(g: Grid, stone: Stone, depth: nat)
    requires IsGrid(g) && depth > 0
    ensures !HasMove(g, stone) && HasMove(g, Opponent(stone)) ==> MinimaxValue(g, stone, depth, true) == NegInf
    ensures HasMove(g, stone) && !HasMove(g, Opponent(stone)) ==> MinimaxValue(g, stone, depth, false) == PosInf
  {
    HasMoveIffValidMoves(g, stone);
    HasMoveIffValidMoves(g, Opponent(stone));
  }

  /** Where `stone` can move, a maximising level's value is the largest of
      its children: at least every legal move's value, and equal to one. */
  lemma MinimaxMaxLevel(g: Grid, stone: Stone, depth: nat)
    requires IsGrid(g) && depth > 0 && HasMove(g, stone)
    ensures forall x, y :: InBounds(x, y) && IsLegal(g, stone, x, y) ==>
      LessEq(MaxChild(g, stone, depth, (x, y)), MinimaxValue(g, stone, depth, true))
    ensures exists x, y ::
      InBounds(x, y) && IsLegal(g, stone, x, y) && MinimaxValue(g, stone, depth, true) == MaxChild(g, stone, depth, (x, y))
  {
    var moves := ValidMoves(g, stone);
    var vals := MaxChildren(g, stone, depth, moves);
    HasMoveIffValidMoves(g, stone);
    ValidMovesSpec(g, stone);
    MaxOfIsMaximum(vals);
    assert MinimaxValue(g, stone, depth, true) == MaxOf(vals);
    forall x, y | InBounds(x, y) && IsLegal(g, stone, x, y)
      ensures LessEq(MaxChild(g, stone, depth, (x, y)), MaxOf(vals))
    {
      assert (x, y) in moves;
      var i :| 0 <= i < |moves| && moves[i] == (x, y);
      assert vals[i] == MaxChild(g, stone, depth, (x, y));
    }
    var i :| 0 <= i < |vals| && MaxOf(vals) == vals[i];
    assert moves[i] in moves;
    assert vals[i] == MaxChild(g, stone, depth, (moves[i].0, moves[i].1));
  }

  /** Where the opponent can move, a minimising level's value is the
      smallest of its children: at most every legal reply's value, and
      equal to one. */
  lemma MinimaxMinLevel(g: Grid, stone: Stone, depth: nat)
    requires IsGrid(g) && depth > 0 && HasMove(g, Opponent(stone))
    ensures forall x, y :: InBounds(x, y) && IsLegal(g, Opponent(stone), x, y) ==>
      LessEq(MinimaxValue(g, stone, depth, false), MinChild(g, stone, depth, (x, y)))
    ensures exists x, y ::
      InBounds(x, y) && IsLegal(g, Opponent(stone), x, y) && MinimaxValue(g, stone, depth, false) == MinChild(g, stone, depth, (x, y))
  {
    var moves := ValidMoves(g, Opponent(stone));
    var vals := MinChildren(g, stone, depth, moves);
    HasMoveIffValidMoves(g, Opponent(stone));
    ValidMovesSpec(g, Opponent(stone));
    MinOfIsMinimum(vals);
    assert MinimaxValue(g, stone, depth, false) == MinOf(vals);
    forall x, y | InBounds(x, y) && IsLegal(g, Opponent(stone), x, y)
      ensures LessEq(MinOf(vals), MinChild(g, stone, depth, (x, y)))
    {
      assert (x, y) in moves;
      var i :| 0 <= i < |moves| && moves[i] == (x, y);
      assert vals[i] == MinChild(g, stone, depth, (x, y));
    }
    var i :| 0 <= i < |vals| && MinOf(vals) == vals[i];
    assert moves[i] in moves;
    assert vals[i] == MinChild(g, stone, depth, (moves[i].0, moves[i].1));
  }
}
