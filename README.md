# A verified model of the 6×6 Othello engine in `ai.py`

This project models the playing core of a small Othello (Reversi) engine. The
board is 6×6 and stored as rows of integers: 0 is empty, 1 is black and 2 is
white. The engine:

- decides whether a stone may be placed at a cell (`can_place_x_y`) and whether
  a side has any move (`can_place`);
- lists the legal moves in row-major order (`get_valid_moves`);
- plays a move on a copy of the board, turning over every bracketed run of
  opponent stones (`place_stone`);
- scores a position with a positional table. `evaluate_with_risk` uses the
  early-game table and subtracts 100 for every X-square the side holds;
- searches with `minimax`;
- chooses its move in `ImprovedAI.place`. With at most 10 empty cells it
  searches four plies ahead; otherwise it scores each move by a one-ply risk
  evaluation.

The board is an `array2<int>` indexed `b[y, x]`. The imperative procedures are
methods over that array. Each method is proved equal to a specification
function on the pure view `Cells(b)` (a `seq<seq<int>>`), and lemmas state the
game properties about those functions.

Modules, one per concern:

- `Common`: `Option`, and `ExtInt`, the integers extended with ±∞. It stands in
  for Python's `-float('inf')` and `float('inf')`. `Max`/`Min` and the folds
  `MaxOf`/`MinOf` are defined on it.
- `Board`: the board constants, the initial position, the array-to-grid view
  and stone counts.
- `Rules`: legality (`CanPlaceXY`, `CanPlace`) and the move list
  (`GetValidMoves`).
- `Placement`: `PlaceStone` and the board it produces (`AfterMove`).
- `Scoring`: the three evaluation tables, `EvaluateBoardWithTable` and
  `EvaluateWithRisk`.
- `Search`: `Minimax` and its specification `MinimaxValue`.
- `ImprovedAI`: `Place` and its specification `Choose`.
- `Openings`: the starting position worked through.

The search is modelled as written. The maximising branch plays `stone` and
recurses with `(opponent, minimising)`. The minimising branch plays the
opponent of its `stone` and recurses with `(stone, maximising)`. After a
maximising ply, the side the parameter names therefore moves again: the
"opponent" passed down is the side the minimising level then treats as `stone`.

The spec functions reproduce this:

- `MaxChild` and `MinChild` give one child's value; they are the exact
  recursive calls of the source.
- A node is a leaf when the depth is 0 or neither side has a move. A leaf is
  valued `evaluate_with_risk(board, stone)` for the `stone` of that node.
- A maximising node whose side has no move, while the other side has one,
  returns −∞. A minimising node in the mirror situation returns +∞.

Two consequences of the code as written:

- Each leaf is scored for the `stone` parameter of its own node, and that
  parameter changes along the path as described above.
- `ImprovedAI.place` calls `minimax(new_board, stone, 4, False)` for each legal
  move when at most 10 cells are empty. Otherwise it scores each legal move by
  `evaluate_with_risk` of the board after the move. It keeps the first move
  whose value is strictly greater than the best so far, starting from −∞.

Some members are definitions, not claims; their meaning is carried by the
lemmas and methods about them:

- `Board.Cells` is the value of a board array.
- `Rules.LegalCells` is the table of legal cells.
- `Rules.ValidMoves` is the row-major list of legal moves.
- `Placement.AfterMove` is the board after a move, built direction by
  direction as `place_stone` builds it.
- `Search.MinimaxValue` is the value `minimax` computes.
- `ImprovedAI.Choose` is the move `place` returns.

The step lemmas used inside loop proofs and inductions have no rows of their
own: `Common.MaxOfAppend`, `Common.MinOfAppend`, `Rules.OffsetStep`,
`Rules.RunStep`, `Rules.FlanksByWalk`, `Rules.ScanStep`,
`Placement.DistAt`, `Placement.PartialCellStep`, `Placement.DisjointUnionCard`,
`Placement.SubsetDifferenceCard`, `Scoring.HeldXSquaresStep`,
`Search.MaxChildrenAppend`, `Search.MinChildrenAppend` and
`Openings.OpeningMaskRows`.

The module `Openings` pins the rules to the starting position. On the
starting board Black's legal moves are exactly (3,1), (4,2), (1,3) and
(2,4), in that order. After Black plays (3,1), rows 1 to 3 read
`[0,0,0,1,0,0]`, `[0,0,1,1,0,0]` and `[0,0,2,1,0,0]`, and the other rows are
unchanged.

## Model

| member | source | states |
|---|---|---|
| Common.Max | ai.py:164 | `max` of two extended values is an upper bound of both and is one of them |
| Common.Min | ai.py:173 | `min` of two extended values is a lower bound of both and is one of them |
| Common.LessIsStrictTotalOrder | ai.py:158-173 | the order used for ±∞ and integers is irreflexive, asymmetric, transitive and total |
| Common.MaxOfIsMaximum | ai.py:158-165 | the fold started at −∞ bounds every element, is −∞ on an empty list and otherwise equals one of the elements |
| Common.MinOfIsMinimum | ai.py:167-174 | the fold started at +∞ bounds every element from below, is +∞ on an empty list and otherwise equals one of the elements |
| Board.Opponent | ai.py:29 | `3 - stone` maps each colour to the other colour, never to itself |
| Board.InitialLayout | ai.py:9-16 | the starting board is a 6×6 board of 0/1/2 with black on (2,2) and (3,3), white on (3,2) and (2,3), and every other cell empty |
| Board.RowCount | ai.py:210 | the number of cells of one row prefix holding a value is at most the prefix length |
| Board.CountBefore | ai.py:210 | the count over the first n rows is at most 6·n |
| Board.CountIsCardinality | ai.py:210 | `sum(row.count(v) for row in board)` equals the number of cells holding v |
| Board.RowCountIsCardinality | ai.py:210 | a row prefix count equals the size of the set of matching cells in that prefix |
| Board.CountBeforeIsCardinality | ai.py:210 | the count over the first n rows equals the size of the set of matching cells in those rows |
| Rules.RunFromHolds | ai.py:36-39 | every cell the walk passes over is on the board and holds the opponent |
| Rules.RunEndStops | ai.py:36 | the walk stops on a cell that is off the board or does not hold the opponent |
| Rules.RunCellsAt | ai.py:36-39 | the t-th cell of the walk started j steps out lies j+t steps from the origin |
| Rules.RunCovers | ai.py:36-39 | every cell between the start of the walk and its end holds the opponent |
| Rules.RunEndAt | ai.py:36-39 | the walk ends exactly its length (in steps) beyond its start |
| Rules.RunLengthOfBracket | ai.py:36-39 | if cells j..k hold the opponent and cell k+1 does not, the walk from j is k+1−j cells long |
| Rules.BracketedRunLength | ai.py:36-41 | a bracketed line of k opponent stones makes the walk exactly k cells long |
| Rules.FlanksBracketed | ai.py:41 | a direction accepted by the test on line 41 has its opponent run closed by an own stone at the walk's length |
| Rules.BracketedFlanks | ai.py:41 | conversely, any bracketing of k ≥ 1 opponent stones passes the test on line 41 |
| Rules.FlanksIffBracketed | ai.py:32-42 | a direction succeeds exactly when it holds 1 or more opponent stones followed by an own stone |
| Rules.IsLegalIffBracketed | ai.py:18-44 | a cell is playable exactly when it is empty and some of the eight directions brackets a run of opponent stones |
| Rules.WalkRun | ai.py:36-39 | the `while` walk returns the first cell past the opponent run and the cells it passed |
| Rules.CanPlaceXY | ai.py:18-44 | `can_place_x_y` returns True exactly for empty cells that bracket in some direction |
| Rules.CanPlace | ai.py:46-56 | `can_place` returns True exactly when some cell of the board is legal |
| Rules.RowMovesMembers | ai.py:125-127 | one row's scan lists exactly the legal cells of that row prefix |
| Rules.RowMovesOrdered | ai.py:125-127 | one row's scan lists cells left to right |
| Rules.MovesBeforeMembers | ai.py:124-127 | the scan of the first n rows lists exactly the legal cells of those rows |
| Rules.MovesBeforeOrdered | ai.py:124-127 | the scan of the first n rows lists cells in row-major order |
| Rules.ValidMovesSpec | ai.py:122-128 | `get_valid_moves` lists exactly the legal cells, in strict row-major order and without repeats |
| Rules.IndexOfLegal | ai.py:122-128 | every legal cell appears in the move list at some index |
| Rules.LegalAtIndex | ai.py:122-128 | every entry of the move list is a legal cell on the board |
| Rules.IndexOrder | ai.py:122-128 | a move that comes first in row-major order comes first in the list |
| Rules.HasMoveIffValidMoves | ai.py:46-56 | `can_place` is True exactly when `get_valid_moves` is non-empty |
| Rules.GetValidMoves | ai.py:122-128 | the nested loop returns the row-major list of legal cells |
| Placement.OnRayInSector | ai.py:137-146 | a cell on a direction's ray lies in that direction's sector, so directions never interfere |
| Placement.OnRayExtend | ai.py:140-143 | the ray of length k+1 is the ray of length k plus the next cell |
| Placement.DirectionsDistinct | ai.py:135 | the eight directions are pairwise distinct |
| Placement.NotFlippedInSector | ai.py:137-146 | directions processed so far never touch the sector of a later direction |
| Placement.RunAgrees | ai.py:140-143 | the walk in one direction reads only cells of that direction's sector, so earlier flips elsewhere do not change it |
| Placement.RunIsRay | ai.py:140-143 | the cells collected in `flips` are exactly the ray cells up to the run's length |
| Placement.RunCellIsOnRay | ai.py:140-143 | each collected cell is on the ray |
| Placement.RayCellIsInRun | ai.py:140-143 | each ray cell up to the run's length is collected |
| Placement.FlipsAlongInRun | ai.py:144-146 | when the run is closed by an own stone, a direction flips exactly the collected cells |
| Placement.TurnOver | ai.py:145-146 | the inner loop sets exactly the listed cells to `stone` and leaves every other cell unchanged |
| Placement.FlipDirection | ai.py:137-146 | one pass of the direction loop moves the copy from the state after i directions to the state after i+1 |
| Placement.PlaceStone | ai.py:131-148 | `place_stone` returns a fresh 6×6 board equal to `AfterMove` of the input |
| Placement.FlipsAlongIffBracketed | ai.py:137-146 | a direction turns a cell exactly when it brackets k opponent stones and the cell is one of those k |
| Placement.FlippedWithinIffSome | ai.py:137-146 | a cell is turned by the first n directions exactly when one of them turns it |
| Placement.AfterMoveCell | ai.py:131-148 | a cell of the new board holds `stone` if it is the placed cell or lies in a bracketed run; otherwise it keeps its old value |
| Placement.FlipsAlongHeldOpponent | ai.py:140-146 | only opponent stones on the board are turned |
| Placement.TurnedHeldOpponent | ai.py:140-146 | the turned cells held the opponent and do not include the placed cell |
| Placement.LegalMoveTurns | ai.py:18-44 | a legal move turns at least one stone |
| Placement.MoveHoldings | ai.py:131-148 | the mover gains the placed cell and the turned cells; the opponent loses exactly the turned cells |
| Placement.MoverHoldings | ai.py:131-148 | the mover's cells after the move are its old cells, the placed cell and the turned cells |
| Placement.OpponentHoldings | ai.py:131-148 | the opponent's cells after the move are its old cells minus the turned cells |
| Placement.MoveCounts | ai.py:131-148 | a legal move adds 1 + (turned) stones to the mover, at least 2, and removes the turned ones from the opponent |
| Scoring.EvaluateBoardWithTable | ai.py:99-107 | the nested loop returns the sum of table weights of own cells minus those of opponent cells |
| Scoring.RowScoreAntisymmetric | ai.py:103-106 | one row's score for the opponent is the negation of the score for `stone` |
| Scoring.ScoreBeforeAntisymmetric | ai.py:101-106 | the score of the first n rows for the opponent is the negation |
| Scoring.TableScoreAntisymmetric | ai.py:99-107 | the table score is zero-sum between the two colours |
| Scoring.RowScoreOfEmptyRow | ai.py:103-106 | an empty row scores 0 |
| Scoring.ScoreBeforeOfEmptyRows | ai.py:101-106 | empty rows score 0 |
| Scoring.EmptyBoardScoresZero | ai.py:99-107 | an empty board scores 0 under any table |
| Scoring.RowScoreUpdate | ai.py:103-106 | changing one cell changes a row score only by that cell's contribution, and only in its own row |
| Scoring.ScoreBeforeUpdate | ai.py:101-106 | changing one cell changes the score of the first n rows only by that cell's contribution |
| Scoring.TableScoreUpdate | ai.py:99-107 | the table score is additive over cells: changing one cell changes it by that cell's contribution |
| Scoring.XSquaresDistinct | ai.py:111-112 | the twelve listed cells are distinct and each is an edge or diagonal neighbour of a corner |
| Scoring.NextToCornerListed | ai.py:111-112 | every neighbour of a corner is in the list, so the list is exactly the twelve corner neighbours |
| Scoring.RiskCount | ai.py:115-117 | at most n of the first n listed squares are penalised |
| Scoring.EvaluateWithRisk | ai.py:110-119 | `evaluate_with_risk` returns the early-table score minus 100 for each listed square held by `stone` |
| Scoring.RiskCountIsHeld | ai.py:115-117 | the penalty count equals the number of listed squares held |
| Scoring.RiskScorePenalty | ai.py:110-119 | the risk score is the early-table score minus 100 per corner neighbour held, so it lies between that score − 1200 and that score |
| Search.Minimax | ai.py:151-174 | `minimax` returns `MinimaxValue` of the board, including the drifting side to move and the ±∞ sentinels |
| Search.MaxLevel | ai.py:157-165 | the maximising loop returns the `max`, starting from −∞, of the child values of `stone`'s legal moves in row-major order |
| Search.MaxRow | ai.py:160-164 | one row of the maximising loop extends the running maximum to that row |
| Search.MaxCell | ai.py:161-164 | one cell of the maximising loop folds in its child value exactly when the cell is legal |
| Search.SearchMaxChild | ai.py:162-163 | a maximising child plays `stone` and evaluates the opponent's minimising search one level shallower |
| Search.MinLevel | ai.py:166-174 | the minimising loop returns the `min`, starting from +∞, of the child values of the opponent's legal moves |
| Search.MinRow | ai.py:169-173 | one row of the minimising loop extends the running minimum to that row |
| Search.MinCell | ai.py:170-173 | one cell of the minimising loop folds in its child value exactly when the opponent may play there |
| Search.SearchMinChild | ai.py:171-172 | a minimising child plays the opponent and evaluates `stone`'s maximising search one level shallower |
| Search.MinimaxLeaf | ai.py:154-155 | at depth 0, or when neither side can place, the value is the risk score of the node's own `stone` |
| Search.MinimaxBlocked | ai.py:157-174 | a maximising node whose side cannot move but whose opponent can is −∞; the minimising mirror is +∞ |
| Search.MinimaxMaxLevel | ai.py:157-165 | at a maximising inner node the value bounds every legal move's child value and equals one of them |
| Search.MinimaxMinLevel | ai.py:166-174 | at a minimising inner node the value is at most every opponent move's child value and equals one of them |
| ImprovedAI.Pick | ai.py:219-221 | the strict `>` scan yields a best value that is the value at the chosen index, or −∞ with no index |
| ImprovedAI.CountEmpty | ai.py:210 | the empty-cell count equals the number of cells holding 0 |
| ImprovedAI.Place | ai.py:209-234 | `place` returns `Choose` of the board, in both the endgame and the midgame branch |
| ImprovedAI.EvaluateMove | ai.py:217-218 | each move is valued by a depth-4 minimising search in the endgame and by the risk score of the resulting board otherwise |
| ImprovedAI.ScanMoves | ai.py:212-222 | the scan over the legal moves returns the move that `Pick` selects from their values |
| ImprovedAI.PickStep | ai.py:219-221 | one more move replaces the best exactly when its value is strictly greater |
| ImprovedAI.PickIsFirstMaximum | ai.py:219-221 | there is no choice exactly when every value is −∞; otherwise the choice is a maximum and strictly beats every earlier value |
| ImprovedAI.ChooseNone | ai.py:209-234 | `place` returns None exactly when every legal move is valued −∞, in particular when the side has no move |
| ImprovedAI.AllMinusInfinityPasses | ai.py:212-222 | if every legal move is valued −∞ the result is None |
| ImprovedAI.ValuedMoveIsTaken | ai.py:219-221 | a legal move valued above −∞ guarantees some move is returned |
| ImprovedAI.ChooseLegal | ai.py:209-234 | the returned move is a legal cell on the board |
| ImprovedAI.ChooseFirstBest | ai.py:209-234 | the returned move's value is the largest, and every legal move before it in row-major order is valued strictly lower |
| ImprovedAI.ChosenBeats | ai.py:219-233 | the returned move is at least as good as any legal move, and strictly better than any earlier one |
| ImprovedAI.MidgameAlwaysMoves | ai.py:224-234 | in the midgame, a side with a legal move always gets a move, because the risk score is finite |
| Openings.OpeningBracket | ai.py:9-44 | on the starting board every run Black brackets is one White stone, seen from (3,1), (4,2), (1,3) or (2,4) in the matching direction |
| Openings.OpeningLegalIsListed | ai.py:9-44 | a cell of the starting board that is legal for Black is one of the four opening moves |
| Openings.OpeningListedIsLegal | ai.py:9-44 | each of the four opening moves is legal for Black on the starting board |
| Openings.OpeningLegalCells | ai.py:9-44 | the legal-cell table for Black on the starting board flags exactly those four cells |
| Openings.OpeningLegal | ai.py:9-44 | `can_place_x_y(board, 1, x, y)` on the starting board holds exactly at (3,1), (4,2), (1,3) and (2,4) |
| Openings.OpeningMoves | ai.py:122-128 | `get_valid_moves(board, 1)` on the starting board returns [(3,1), (4,2), (1,3), (2,4)] |
| Openings.OpeningMaskMoves | ai.py:124-127 | scanning that table in row-major order lists the four cells in that order |
| Openings.OpeningMoveCell | ai.py:131-148 | after Black plays (3,1) on the starting board, (3,1) and (3,2) hold Black and every other cell is unchanged |
| Openings.OpeningMoveBoard | ai.py:131-148 | `place_stone(board, 1, 3, 1)` on the starting board gives rows 1-3 `[0,0,0,1,0,0]`, `[0,0,1,1,0,0]`, `[0,0,2,1,0,0]`, all else as before |

## Left out

- `random_place` (ai.py:58-68) depends on a random number generator and is not part of the engine's decision procedure.
- `best_place_with_risk_management` (ai.py:177-202) calls `count_flippable_stones`, which the file does not define, so it cannot run.
- `ImprovedAI.face` returns a display string.
- The imports of `math`, `random` and `ThreadPoolExecutor` are unused by the modelled code. No concurrency is modelled.
- Floating point: the source uses `±float('inf')` only as sentinels next to integer scores. They are modelled as the two infinite values of `ExtInt`.
- Board shape: the board is fixed at 6×6. `len(board)` and `len(board[0])` are the constant `Size`.
- Coordinates outside the board are excluded by preconditions. The source never calls these functions with them.
- The stone argument is restricted to 1 or 2 (`Stone`). Other values are outside the engine's use.
- Deep copy: the copy made by `copy.deepcopy` is modelled as a fresh array (`PlaceStone` ensures `fresh(nb)`). Aliasing of the original rows is not modelled.
- Structure: the endgame and midgame loops of `place` (ai.py:212-222 and 225-234) have the same shape. They are modelled as one loop, `ScanMoves`, with an `endgame` flag that selects the value of each move (`EvaluateMove`).
- Structure: the loop bodies of `minimax` and the direction loop of `place_stone` are separate methods (`MaxRow`, `MaxCell`, `MinRow`, `MinCell`, `SearchMaxChild`, `SearchMinChild`, `FlipDirection`, `TurnOver`, `WalkRun`). The loops inside them are the source's loops.
- `MinimaxValue` tests the leaf condition through empty move lists rather than `can_place`. `Rules.HasMoveIffValidMoves` proves the two tests agree, and `Search.Minimax` uses `can_place` as the source does.
- Running time: the model does not bound the number of positions the search visits.
