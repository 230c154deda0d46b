/** The playing agent: ImprovedAI.place. With at most ten empty cells left it
    searches each legal move with minimax; otherwise it scores each legal
    move by the risk-adjusted evaluation of the board after it. Either way it
    keeps the first move, in row-major order, whose value is strictly larger
    than everything seen before, starting from -inf. */
module ImprovedAI {
  import opened Common
  import opened Board
  import opened Rules
  import opened Placement
  import opened Scoring
  import opened Search

  /** The endgame starts once this many cells or fewer are empty. */
  const EndgameEmptyCells: int := 10

  /** Depth of the endgame search below the candidate move. */
  const EndgameDepth: nat := 4

  /** Whether place treats the position as an endgame. */
  predicate IsEndgame(g: Grid)
    requires IsGrid(g)
  {
    Count(g, Empty) <= EndgameEmptyCells
  }

  /** The value place gives to `stone` playing m: the minimax value of the
      board after m (the opponent to reply) in the endgame, the
      risk-adjusted score of that board otherwise. */
  function MoveValue(g: Grid, stone: Stone, endgame: bool, m: Pos): ExtInt
    requires IsGrid(g)
  {
    if endgame then MinimaxValue(AfterMove(g, stone, m.0, m.1), stone, EndgameDepth, false)
    else Fin(RiskScore(AfterMove(g, stone, m.0, m.1), stone))
  }

  /** The values of the moves, in list order. */
  function MoveValues(g: Grid, stone: Stone, endgame: bool, moves: seq<Pos>): seq<ExtInt>
    requires IsGrid(g)
  {
    seq(|moves|, i requires 0 <= i < |moves| => MoveValue(g, stone, endgame, moves[i]))
  }

  /** The best value so far and the position in the list where it was
      found, if any. */
  datatype Choice = Choice(best: ExtInt, index: Option<nat>)

  /** The scan place performs over a list of values: start from -inf and no
      move, and take a value only when it is strictly larger than the best so
      far. */
  function Pick(vals: seq<ExtInt>): (c: Choice)
    ensures c.index.Some? ==> c.index.value < |vals| && c.best == vals[c.index.value]
    ensures c.index.None? ==> c.best == NegInf
  {
    if vals == [] then Choice(NegInf, None)
    else
      var c := Pick(vals[..|vals| - 1]);
      if Less(c.best, vals[|vals| - 1]) then Choice(vals[|vals| - 1], Some(|vals| - 1)) else c
  }

  /** The move at a chosen position of the list. */
  function MoveAt(moves: seq<Pos>, index: Option<nat>): Option<Pos> {
    if index.Some? && index.value < |moves| then Some(moves[index.value]) else None
  }

  /** What place returns for `stone` on g. */
  function Choose(g: Grid, stone: Stone): Option<Pos>
    requires IsGrid(g)
  {
    var moves := ValidMoves(g, stone);
    MoveAt(moves, Pick(MoveValues(g, stone, IsEndgame(g), moves)).index)
  }

  // ---------------------------------------------------------------------
  // The agent as the engine runs it

  /** The number of empty cells, counted row by row. */
  method CountEmpty(b: array2<int>) returns (n: int)
    requires IsBoardArray(b)
    ensures n == Count(Cells(b), Empty)
  {
    ghost var g := Cells(b);
    n := 0;
    for y := 0 to Size
      invariant n == CountBefore(g, Empty, y)
    {
      for x := 0 to Size
        invariant n == CountBefore(g, Empty, y) + RowCount(g, Empty, y, x)
      {
        if b[y, x] == 0 {
          n := n + 1;
        }
      }
    }
  }

  /** ImprovedAI.place. */
  method Place(b: array2<int>, stone: Stone) returns (move: Option<Pos>)
    requires IsBoardArray(b)
    ensures move == Choose(Cells(b), stone)
  {
    var emptyCells := CountEmpty(b);
    var endgame := emptyCells <= EndgameEmptyCells;
    move := ScanMoves(b, stone, endgame);
  }

  /** The value of one legal move, computed on a copy of the board. */
  method EvaluateMove(b: array2<int>, stone: Stone, endgame: bool, x: int, y: int) returns (e: ExtInt)
    requires IsBoardArray(b) && InBounds(x, y)
    ensures e == MoveValue(Cells(b), stone, endgame, (x, y))
  {
    var nb := PlaceStone(b, stone, x, y);
    if endgame {
      e := Minimax(nb, stone, EndgameDepth, false);
    } else {
      var score := EvaluateWithRisk(nb, stone);
      e := Fin(score);
    }
  }

  /** The scan shared by both phases: every legal move in row-major order,
      keeping a move only when its value beats the best so far. */
  method ScanMoves(b: array2<int>, stone: Stone, endgame: bool) returns (bestMove: Option<Pos>)
    requires IsBoardArray(b)
    ensures bestMove == MoveAt(ValidMoves(Cells(b), stone), Pick(MoveValues(Cells(b), stone, endgame, ValidMoves(Cells(b), stone))).index)
  {
    ghost var g := Cells(b);
    ghost var legal := LegalCells(g, stone);
    var bestEval := NegInf;
    bestMove := None;
    for y := 0 to Size
      invariant bestEval == Pick(MoveValues(g, stone, endgame, MovesBefore(legal, y))).best
      invariant bestMove == MoveAt(MovesBefore(legal, y), Pick(MoveValues(g, stone, endgame, MovesBefore(legal, y))).index)
    {
      assert MovesBefore(legal, y) + RowMoves(legal, y, 0) == MovesBefore(legal, y);
      for x := 0 to Size
        invariant bestEval == Pick(MoveValues(g, stone, endgame, MovesBefore(legal, y) + RowMoves(legal, y, x))).best
        invariant bestMove == MoveAt(MovesBefore(legal, y) + RowMoves(legal, y, x),
                                     Pick(MoveValues(g, stone, endgame, MovesBefore(legal, y) + RowMoves(legal, y, x))).index)
      {
        ghost var done := MovesBefore(legal, y) + RowMoves(legal, y, x);
        var ok := CanPlaceXY(b, stone, x, y);
        if ok {
          var e := EvaluateMove(b, stone, endgame, x, y);
          PickStep(g, stone, endgame, done, (x, y));
          if Less(bestEval, e) {
            bestEval := e;
            bestMove := Some((x, y));
          }
        }
        ScanStep(legal, y, x);
      }
    }
  }

  /** One more move extends the scan: it is taken exactly when its value is
      strictly larger than the best so far, and the earlier choice keeps
      pointing at the same move otherwise. */
  lemma PickStep(g: Grid, stone: Stone, endgame: bool, done: seq<Pos>, m: Pos)
    requires IsGrid(g)
    ensures Pick(MoveValues(g, stone, endgame, done + [m])).best ==
      (if Less(Pick(MoveValues(g, stone, endgame, done)).best, MoveValue(g, stone, endgame, m))
       then MoveValue(g, stone, endgame, m) else Pick(MoveValues(g, stone, endgame, done)).best)
    ensures MoveAt(done + [m], Pick(MoveValues(g, stone, endgame, done + [m])).index) ==
      (if Less(Pick(MoveValues(g, stone, endgame, done)).best, MoveValue(g, stone, endgame, m))
       then Some(m) else MoveAt(done, Pick(MoveValues(g, stone, endgame, done)).index))
  {
    var vals := MoveValues(g, stone, endgame, done);
    assert MoveValues(g, stone, endgame, done + [m]) == vals + [MoveValue(g, stone, endgame, m)];
    assert (vals + [MoveValue(g, stone, endgame, m)])[..|vals|] == vals;
  }

  // ---------------------------------------------------------------------
  // What place promises

  /** The scan returns no move exactly when every value is -inf; otherwise
      it returns the first position holding the largest value. */
  lemma {:induction false} PickIsFirstMaximum(vals: seq<ExtInt>)
    ensures Pick(vals).index.None? <==> forall i :: 0 <= i < |vals| ==> vals[i] == NegInf
    ensures Pick(vals).index.Some? ==>
      (forall i :: 0 <= i < |vals| ==> LessEq(vals[i], Pick(vals).best)) &&
      (forall i :: 0 <= i < Pick(vals).index.value ==> Less(vals[i], Pick(vals).best))
  {
    LessIsStrictTotalOrder();
    if vals != [] {
      var k := |vals| - 1;
      PickIsFirstMaximum(vals[..k]);
      var c := Pick(vals[..k]);
      forall i | 0 <= i < k
        ensures vals[i] == vals[..k][i]
      {
      }
      if c.index.None? {
        assert forall i :: 0 <= i < k ==> vals[i] == NegInf;
      }
    }
  }

  /** place answers "no move" exactly when every legal move is valued -inf;
      in particular whenever `stone` has no legal move. */
  lemma ChooseNone(g: Grid, stone: Stone)
    requires IsGrid(g)
    ensures Choose(g, stone) == None <==>
      forall x, y :: InBounds(x, y) && IsLegal(g, stone, x, y) ==> MoveValue(g, stone, IsEndgame(g), (x, y)) == NegInf
    ensures !HasMove(g, stone) ==> Choose(g, stone) == None
  {
    if forall x, y :: InBounds(x, y) && IsLegal(g, stone, x, y) ==> MoveValue(g, stone, IsEndgame(g), (x, y)) == NegInf {
      AllMinusInfinityPasses(g, stone);
    } else {
      var x, y :| InBounds(x, y) && IsLegal(g, stone, x, y) && MoveValue(g, stone, IsEndgame(g), (x, y)) != NegInf;
      ValuedMoveIsTaken(g, stone, x, y);
    }
  }

  lemma AllMinusInfinityPasses(g: Grid, stone: Stone)
    requires IsGrid(g)
    requires forall x, y :: InBounds(x, y) && IsLegal(g, stone, x, y) ==> MoveValue(g, stone, IsEndgame(g), (x, y)) == NegInf
    ensures Choose(g, stone) == None
  {
    var moves := ValidMoves(g, stone);
    var vals := MoveValues(g, stone, IsEndgame(g), moves);
    PickIsFirstMaximum(vals);
    forall i | 0 <= i < |vals|
      ensures vals[i] == NegInf
    {
      LegalAtIndex(g, stone, i);
    }
  }

  lemma ValuedMoveIsTaken(g: Grid, stone: Stone, x: int, y: int)
    requires IsGrid(g) && InBounds(x, y) && IsLegal(g, stone, x, y)
    requires MoveValue(g, stone, IsEndgame(g), (x, y)) != NegInf
    ensures Choose(g, stone).Some?
  {
    var moves := ValidMoves(g, stone);
    var vals := MoveValues(g, stone, IsEndgame(g), moves);
    PickIsFirstMaximum(vals);
    var i := IndexOfLegal(g, stone, x, y);
    assert vals[i] != NegInf;
  }

  /** Any move place returns is a legal move for `stone`. */
  lemma ChooseLegal(g: Grid, stone: Stone)
    requires IsGrid(g) && Choose(g, stone).Some?
    ensures InBounds(Choose(g, stone).value.0, Choose(g, stone).value.1)
    ensures IsLegal(g, stone, Choose(g, stone).value.0, Choose(g, stone).value.1)
  {
    var c := Pick(MoveValues(g, stone, IsEndgame(g), ValidMoves(g, stone)));
    LegalAtIndex(g, stone, c.index.value);
  }

  /** The move place returns has the largest value among the legal moves,
      and every legal move before it in row-major order is worth strictly
      less: it is the first maximiser. */
  lemma ChooseFirstBest(g: Grid, stone: Stone)
    requires IsGrid(g) && Choose(g, stone).Some?
    ensures forall x, y :: InBounds(x, y) && IsLegal(g, stone, x, y) ==>
      LessEq(MoveValue(g, stone, IsEndgame(g), (x, y)), MoveValue(g, stone, IsEndgame(g), Choose(g, stone).value))
    ensures forall x, y :: InBounds(x, y) && IsLegal(g, stone, x, y) && RowMajorBefore((x, y), Choose(g, stone).value) ==>
      Less(MoveValue(g, stone, IsEndgame(g), (x, y)), MoveValue(g, stone, IsEndgame(g), Choose(g, stone).value))
  {
    forall x, y | InBounds(x, y) && IsLegal(g, stone, x, y)
      ensures LessEq(MoveValue(g, stone, IsEndgame(g), (x, y)), MoveValue(g, stone, IsEndgame(g), Choose(g, stone).value))
      ensures RowMajorBefore((x, y), Choose(g, stone).value) ==>
        Less(MoveValue(g, stone, IsEndgame(g), (x, y)), MoveValue(g, stone, IsEndgame(g), Choose(g, stone).value))
    {
      ChosenBeats(g, stone, x, y);
    }
  }

  lemma ChosenBeats(g: Grid, stone: Stone, x: int, y: int)
    requires IsGrid(g) && Choose(g, stone).Some? && InBounds(x, y) && IsLegal(g, stone, x, y)
    ensures LessEq(MoveValue(g, stone, IsEndgame(g), (x, y)), MoveValue(g, stone, IsEndgame(g), Choose(g, stone).value))
    ensures RowMajorBefore((x, y), Choose(g, stone).value) ==>
      Less(MoveValue(g, stone, IsEndgame(g), (x, y)), MoveValue(g, stone, IsEndgame(g), Choose(g, stone).value))
  {
    var moves := ValidMoves(g, stone);
    var vals := MoveValues(g, stone, IsEndgame(g), moves);
    var k := Pick(vals).index.value;
    PickIsFirstMaximum(vals);
    var j := IndexOfLegal(g, stone, x, y);
    assert vals[j] == MoveValue(g, stone, IsEndgame(g), (x, y));
    assert vals[k] == MoveValue(g, stone, IsEndgame(g), Choose(g, stone).value);
    if RowMajorBefore((x, y), Choose(g, stone).value) {
      IndexOrder(g, stone, j, k);
    }
  }

  /** Before the endgame, place never passes while a legal move exists:
      every move has a finite value, which beats -inf. */
  lemma MidgameAlwaysMoves(g: Grid, stone: Stone)
    requires IsGrid(g) && !IsEndgame(g) && HasMove(g, stone)
    ensures Choose(g, stone).Some?
  {
    var x, y :| 0 <= x < Size && 0 <= y < Size && IsLegal(g, stone, x, y);
    ChooseNone(g, stone);
    assert MoveValue(g, stone, false, (x, y)) != NegInf;
  }
}
