# Tetris beam-search solver and its genetic tuner, modelled in Dafny

The system plays a fixed sequence of 10000 Tetris pieces on a 20 x 10
board and looks for the sequence of moves that scores the most. The C++
engine has three parts:

- **Board engine.** The rows are 16-bit masks, also read as five 64-bit
  words. The engine provides the bit utilities (ctz, popcnt, set-bit
  iteration) and the pieces and their bounds. It computes the piece
  sequence from a linear congruential generator. It places a piece,
  clears full rows and scores them by kMul. It rates a board with
  Quality and prunes thin stacks with IsOk. It finds every resting
  position of a piece (FindAllMoves) with a route of actions to reach it
  (AppendRoute and its detours), and replays and checks such a route
  (ReplayAndVerify).
- **Beam search.** One layer per step, every kept node is expanded. A
  collector keeps the best node per board. The global best is tracked,
  and the next layer is chosen by pruning and by two ranked selections
  under ancestor and height quotas (MoveTopN). The run gives up when a
  step's best score falls below that step's abort threshold. At the end
  the moves of the best node's ancestry are written out.
- **Genetic tuner.** A Python driver encodes the search's flags as a
  34-digit binary genome. It seeds the initial genome and its one-digit
  variants, then breeds new genomes from the eight best (three-flip
  mutation and two-point crossover, drawn from the same generator). It
  keeps up to eight searches running and records their outcomes under
  their flags.

## How the model is organised

Each module follows one part of the source.

| module | source |
|---|---|
| `Bits` | utils.h |
| `Lcg` | the generator shared by GenBricks and rand |
| `Decimal` | decimal text and comma lists of the abort-threshold flag |
| `Tetris` | tetris_common.h |
| `Board` | row metrics, Fits, PutCopy, CollapseInPlace |
| `Evaluation` | Quality, IsOk, BricksEqual, BricksComp |
| `ActionText` | Action::AppendTo, Action::Join |
| `Routes` | the replay, the route finders, FindAllMoves |
| `Search` | nodes, StateCollector, SearchFrom, PrepareFlags |
| `Selection` | MoveTopN, ChooseForNextStep |
| `Solve` | Solve, MakeSolution |
| `Genetic` | genetic.py |

A board (`Situation`) is a value. `Board.Board` is a class over an
`array` of rows, used where the source rewrites a board in place
(CollapseInPlace, the bit reference's assignment). `StateCollector` is a
class whose map of boards to nodes is updated by `Add` and emptied by
`MoveTo`. Nodes of the search are values that hold their parent. The
driver's `State` is a class with these fields:

- `done`: done_genomes;
- `order`: its insertion order;
- `results`;
- `running`;
- `pending`.

Its methods change those fields as the Python methods do.

Loops in the source are loops here, each proved against a specification
function. Here is what the model proves about those functions:

- Every candidate FindAllMoves reports replays through ReplayAndVerify
  to its own board. So the search's verification can never fail.
- A successful route appends actions that replay from the start to the
  target.
- Collapsing removes exactly the full rows, and never more than four of
  them.
- BricksComp is a strict total order on boards.
- Action::Join's text reads back as the merged action list.
- The collector keeps the best node of each board, whatever the order
  of additions.
- MoveTopN moves entries without loss. Its picks are exactly those of
  a greedy reference walk over the sorted entries, and they form a
  selection within the quotas.
- Solve either gives up or delivers actions that play from the initial
  board to its final board, with a non-decreasing score log at or above
  the thresholds.
- genome_to_params' flags survive the split on spaces in Running.
- The initial genomes are 35 distinct genomes.
- The stable descending sort and the top-n selections are correct.
- ping keeps the driver's invariant: every done genome is filed under
  flags that have an outcome, and the running genomes are distinct and
  not done.

The model follows genetic.py:

- choice_calc indexes with `x % 2**bits`, not modulo the number of
  choices. An out-of-range index is the IndexError path (`None`).
- int_range_calc truncates: int_range_calc(0, 3)(3, 2) is 2.
- When no done genome scores above zero, get_next_genome fails on
  `rand() % 0`. It does not report a dedicated error. This is the
  `Crashed` status.

The quota record's `value` in MoveTopN is never assigned in the source,
so the equal-key exemption compares against the zero key. The model
keeps that behaviour (`Selection.HeightQuotaBound`).

## Model

| member | source | states |
|---|---|---|
| Bits.Ctz | utils.h:9-16 | ctz(v) of a non-zero v is the index of its lowest set bit: that bit is set and no lower one is |
| Bits.CtzConcat | utils.h:9-16 | the lowest set bit of a row group a + 2^n·b is a's lowest bit when a is non-zero, otherwise n above b's lowest bit |
| Bits.Popcnt | utils.h:26-37 | popcnt: the number of set bits, counted digit by digit; PopcntBound, PopcntZero and PopcntConcat state its properties |
| Bits.PopcntBound | utils.h:26-37 | popcnt of a w-bit word is at most w |
| Bits.PopcntZero | utils.h:26-37 | popcnt(v) is zero exactly when v is zero |
| Bits.PopcntConcat | utils.h:26-37 | popcnt of a packed word a + 2^n·b counts the set bits of both parts |
| Bits.Blsr | utils.h:39-41 | blsr(x) = x & (x - 1), zero for zero; BlsrStep, BlsrBit and BlsrPopcnt state its properties |
| Bits.BlsrStep | utils.h:39-41 | x & (x - 1) on odd x is x - 1 and on even x is twice blsr(x/2) |
| Bits.BlsrBit | utils.h:39-41 | blsr(v) clears exactly the lowest set bit of v and keeps every other bit |
| Bits.BlsrPopcnt | utils.h:39-41 | blsr of a non-zero value removes one set bit and lowers the value |
| Bits.SetBits | utils.h:98-105 | the indices set_bits(v) yields: ctz(v), then those of blsr(v); SetBitsSpec states what they are |
| Bits.SetBitsSpec | utils.h:98-105 | set_bits(v) enumerates exactly the set bits of v, strictly ascending, popcnt(v) of them |
| Bits.BitIterator.Current | utils.h:76-78 | operator* is the first index set_bits yields, the lowest set bit |
| Bits.BitIterator.Advance | utils.h:80-83 | operator++ replaces v by blsr(v), dropping the first index from the enumeration |
| Bits.BitRange.Size | utils.h:60 | std::distance from an iterator at v to the end iterator at 0 is popcnt(v), the length of the enumeration |
| Bits.SetBitsRange | utils.h:98-105 | set_bits(v) is the range from BitIterator(v) to BitIterator(0); it is empty exactly when its size is zero |
| Bits.AndPow2 | tetris_common.h:220 | row & (1u << x) is non-zero exactly when bit x of the row is set |
| Bits.OrTop | tetris_common.h:229 | setting bit n of a value below 2^n adds 2^n |
| Bits.AndNotBit | tetris_common.h:231 | storage & ~(1u << x) style masking keeps a bit exactly when it is set in a and clear in b |
| Lcg.Next | tetris_common.h:161-167 | one step of the generator (c·27073 + 17713) mod 32749 is below the modulus |
| Lcg.After | tetris_common.h:164-167 | every state reached after at least one step is below the modulus |
| Lcg.NoOverflow | tetris_common.h:161-167 | no state and no intermediate product c·27073 + 17713 leaves the uint32_t range, so the C++ arithmetic agrees with the unbounded one |
| Decimal.NatToString | genetic.py:29 | str(n) of a non-negative n is a non-empty digit string without a leading zero |
| Decimal.IntToString | genetic.py:29 | str(x) is non-empty and starts with '-' exactly when x is negative |
| Decimal.NatToStringValue | genetic.py:29 | the digits of str(n) read back as n |
| Decimal.ParseU32 | search.cc:50-53 | SimpleAtoi into a uint32_t succeeds only with a value below 2^32 |
| Decimal.ParseNatToString | search.cc:50-53 | SimpleAtoi reads the decimal text of any 32-bit value back as that value |
| Decimal.Split | search.cc:50 | StrSplit always yields at least one piece, one empty piece for "" |
| Decimal.SplitFirst | search.cc:50 | splitting p + sep + rest, p free of sep, yields p and then the pieces of rest |
| Decimal.SplitJoin | genetic.py:92 | splitting the ','.join of separator-free pieces yields the pieces back |
| Decimal.NoSepInNumber | genetic.py:92 | the decimal text of a number holds no separator other than a digit |
| Tetris.XInRange | tetris_common.h:20 | a column index lies in [0, kW) |
| Tetris.YInRange | tetris_common.h:21 | a row index lies in [0, kH) |
| Tetris.InRange | tetris_common.h:23-25 | a cell lies on the board: both indices in range |
| Tetris.Cells | tetris_common.h:45-98 | kShapeDesc[shp].pos[rot] has four cells, the first at the origin, all within two of it, and zero cells in the unused slots |
| Tetris.RotCount | tetris_common.h:45-98 | kShapeDesc[shp].cnt is 1, 2 or 4 |
| Tetris.NextRot | tetris_common.cc:256 | the next rotation (rot + 1) & (cnt - 1); NextRotIsMod shows it is the next rotation modulo cnt |
| Tetris.NextRotIsMod | tetris_common.cc:256 | (rot + 1) & (cnt - 1) is (rot + 1) mod cnt and so stays below cnt |
| Tetris.BoundsOf | tetris_common.h:115-118 | the min/max of four cells: every cell lies within the bounds and each bound is attained by a cell |
| Tetris.Bounds | tetris_common.h:110-124 | kShapeBounds[shp][rot] contains the origin, lies within two of it, and is zero for the unused slots |
| Tetris.BoundsContainCells | tetris_common.h:110-124 | every cell of every rotation lies inside kShapeBounds[shp][rot] |
| Tetris.ShapeTableBounds | tetris_common.h:50-124 | on the kShapeDesc table the computed entries are exactly the shape bounds |
| Tetris.MakeShapeBounds | tetris_common.h:110-122 | the 7 x 4 table the two loops fill holds the bounds of every slot |
| Tetris.BoundsTable | tetris_common.h:110-122 | the two loops over a table laid out like kShapeDesc fill each real slot with its bounds and leave the rest zero |
| Tetris.BrickStatus.ReplaceX | tetris_common.h:147 | ReplaceX changes x only |
| Tetris.BrickStatus.ReplaceY | tetris_common.h:148 | ReplaceY changes y only |
| Tetris.BrickStatus.ReplaceRot | tetris_common.h:149-151 | ReplaceRot changes rot only |
| Tetris.ShapeForWeight | tetris_common.h:172-187 | the shape chosen for weight index w < 29 is the one whose cumulative weight range 2,3,3,4,5,6,6 holds w |
| Tetris.BrickAt | tetris_common.h:157-194 | kBricks[i] starts at x = 4, y = 0 with rotation below cnt, and its shape is picked by the (i+1)-th generator state mod 29 |
| Tetris.GenBricks | tetris_common.h:157-194 | the loop fills all 10000 entries, entry i being BrickAt(i) |
| Tetris.RowBitMaskBits | tetris_common.h:215 | kRowBitMask = (1 << kW) - 1 has exactly the bits of the ten columns |
| Tetris.WithBit | tetris_common.h:227-233 | BitRef's assignment sets bit x of the row to v and keeps every other bit |
| Board.FirstNonEmpty | tetris_common.cc:64-70 | the topmost non-empty row: every row above it is empty and it is not |
| Board.FirstNonEmptyAt | tetris_common.cc:64-70 | a non-empty row with only empty rows above it is the topmost non-empty row |
| Board.PackPopcnt | tetris_common.h:204-209 | popcnt of a row_4_ word counts the cells of its four uint16_t rows |
| Board.PackZero | tetris_common.h:204-209 | a row_4_ word is zero exactly when its rows are all empty |
| Board.PackCtz | tetris_common.cc:67 | ctz of a non-zero row_4_ word divided by 16 is the index of its first non-empty row |
| Board.PackInjective | tetris_common.h:204-209 | the union's little-endian packing is one-to-one on groups of equally many rows |
| Board.TotalOccupied | tetris_common.cc:57-62 | popcnt summed over the five row_4_ words is the number of occupied cells |
| Board.GroupZero | tetris_common.cc:66-67 | row_4_[i] is zero exactly when rows 4i to 4i+3 are empty |
| Board.GroupCtz | tetris_common.cc:67 | in the first non-zero row_4_ word, ctz / 16 + 4i is the topmost non-empty row |
| Board.OccupiedHeight | tetris_common.cc:64-70 | the height is kH minus the index of the topmost non-empty row, and zero exactly for an empty board |
| Board.FullMaskBit | tetris_common.cc:72-77 | bit y of the collapsable mask is set exactly when row y is full |
| Board.FullMaskZero | tetris_common.cc:72-77 | the collapsable mask is zero exactly when no row is full |
| Board.CollapsableBitmask | tetris_common.cc:72-77 | the loop sets bit y for each full row y and nothing else |
| Board.NonFullHasNoFullRow | tetris_common.cc:118-120 | none of the rows kept by the row moves is full |
| Board.NonFullAppend | tetris_common.cc:118-120 | keeping the non-full rows distributes over concatenation |
| Board.NonFullKeepsAll | tetris_common.cc:111 | with no full row, every row is kept as it is |
| Board.FullMaskCount | tetris_common.cc:114 | popcnt of the collapsable mask is the number of full rows |
| Board.NonFullCellCount | tetris_common.cc:114-115 | each full row removed takes ten cells with it |
| Board.FullRowsInWindow | tetris_common.cc:113-114 | when the full rows lie within four consecutive rows, at most four are full, so kMul[lines - 1] is in bounds |
| Board.Collapsed | tetris_common.cc:106-126 | the board after CollapseInPlace: the step advances and, before the last step, full rows are cleared, scored and counted; CollapsedRemovesFullRows, CollapsedCellCount and CollapsedHasNoFullRow state its properties |
| Board.CollapsedHasNoFullRow | tetris_common.cc:106-126 | after CollapseInPlace no row is full while the game goes on |
| Board.CollapsedTop | tetris_common.cc:96-126 | a placed and collapsed board keeps row 0 empty and has no full row before the last step |
| Board.CollapsedRemovesFullRows | tetris_common.cc:106-126 | clearing removes exactly the full rows, keeps the others in order, adds as many empty rows on top, adds kMul[lines-1] times the cell count to the score and counts lines and clears |
| Board.CollapsedCellCount | tetris_common.cc:106-126 | clearing n lines removes exactly 10n cells |
| Board.BoundsFitMeaning | tetris_common.cc:83-85 | the two bounds tests hold exactly when every cell is within the walls and above the floor and some cell is on the board |
| Board.FitsMeaning | tetris_common.cc:79-94 | Fits holds exactly when every cell is within the columns and above the floor, some cell is on the board and no on-board cell is occupied |
| Board.Fits | tetris_common.cc:79-94 | Fits computes the placement test of the piece |
| Board.FitsCells | tetris_common.cc:83-93 | the bounds test, then the on-board cells one by one, decide the same as bounds and free cells together |
| Board.PlaceCellsBit | tetris_common.cc:96-104 | after placing, a cell is occupied exactly when it was before or a piece cell lands on it within the columns |
| Board.PutCopy | tetris_common.cc:96-104 | PutCopy returns the situation with the piece's on-board cells set |
| Board.MaskTest | tetris_common.cc:119 | collapsable_bitmask & (1 << y) is zero exactly for a row that is not full |
| Board.ClearFullRows | tetris_common.cc:118-121 | the two loops of the row moves leave the array holding the non-full rows 19..1 at the bottom and zeros above |
| Board.MoveNonFullDown | tetris_common.cc:118-120 | the first loop copies the non-full rows among 19..1 down to the floor in order and returns the next row to write |
| Board.MoveStep | tetris_common.cc:119 | one iteration copies row y to row wy exactly when it is not full |
| Board.MoveRow | tetris_common.cc:119 | row_[wy--] = row_[y] writes one row and leaves the rows above wy untouched |
| Board.ZeroAbove | tetris_common.cc:121 | the second loop zeroes every row from wy up to the top |
| Board.Board.Assign | tetris_common.h:227-235 | assigning through BitRef changes bit x of row y only |
| Board.Board.CollapseInPlace | tetris_common.cc:106-126 | in place, the board becomes the collapsed value of the old board |
| Evaluation.RowTransitionsBit | tetris_common.cc:168-169 | bit x of (row ^ row >> 1) & (kRowBitMask >> 1) is set exactly when columns x and x+1 differ, for x below 9 |
| Evaluation.CoveredBit | tetris_common.cc:177-182 | bit x of top_rows is set exactly when some row above has column x occupied |
| Evaluation.HoleBit | tetris_common.cc:176-178 | ~row & top_rows marks exactly the empty cells of row y with an occupied cell somewhere above |
| Evaluation.SupportedBit | tetris_common.cc:185-193 | bit x of bottom_rows is set exactly when column x is within the board and occupied in every row below |
| Evaluation.OverhangBit | tetris_common.cc:189-190 | row & ~bottom_rows marks exactly the occupied cells with an empty cell below in the same column |
| Evaluation.Quality | tetris_common.cc:153-194 | Quality returns the top-down pass plus the bottom-up pass of the quality function |
| Evaluation.TopRowsPass | tetris_common.cc:158-183 | the first loop sums 600 per cell minus the row-transition, column-transition and covered-gap penalties row by row from the top |
| Evaluation.BottomRowsPass | tetris_common.cc:185-193 | the second loop subtracts empty_penalty2 per cell above a gap, row by row from the bottom |
| Evaluation.QualityEmpty | tetris_common.cc:153-194 | the empty board has quality 0 for every choice of penalties |
| Evaluation.TopPassEmpty | tetris_common.cc:158-183 | the first pass over empty rows adds nothing and leaves top_rows zero |
| Evaluation.BottomPassEmpty | tetris_common.cc:185-193 | the second pass over empty rows subtracts nothing |
| Evaluation.QualityNoPenalty | tetris_common.cc:153-194 | with all penalties zero the quality is 600 times the number of cells |
| Evaluation.TopPassNoPenalty | tetris_common.cc:163-166 | with all penalties zero the first pass is 600 times the number of cells |
| Evaluation.BottomPassNoPenalty | tetris_common.cc:185-193 | with all penalties zero the second pass is zero |
| Evaluation.IsOk | tetris_common.cc:196-211 | IsOk rejects exactly the boards at least five rows high whose five topmost rows hold at most three cells each |
| Evaluation.NotOkSparse | tetris_common.cc:201-208 | a board IsOk rejects holds at most fifteen cells in its five topmost rows |
| Evaluation.GroupsInjective | tetris_common.h:204-209 | two boards have the same row_4_ words exactly when they have the same rows |
| Evaluation.LexCompareZero | tetris_common.cc:487-492 | the comparison is zero exactly on equal word sequences |
| Evaluation.LexCompareAntisymmetric | tetris_common.cc:487-492 | swapping the arguments flips the sign of the comparison |
| Evaluation.LexCompareTransitive | tetris_common.cc:487-492 | "greater" is transitive |
| Evaluation.LexCompareNotAbove | tetris_common.cc:487-492 | "not greater" is transitive |
| Evaluation.LexCompareConcat | tetris_common.cc:487-492 | the first words decide and later words only break a tie |
| Evaluation.BricksEqual | tetris_common.cc:481-485 | BricksEqual holds exactly when the two boards have the same rows |
| Evaluation.BricksComp | tetris_common.cc:487-492 | BricksComp returns the sign of the first differing row_4_ word, 0 when all are equal |
| Evaluation.BricksCompOrder | tetris_common.cc:487-492 | BricksComp is a strict total order on boards: 0 only on equal boards, antisymmetric, transitive |
| ActionText.AppendTo | tetris_common.cc:25-36 | AppendTo adds a comma unless the string is empty, then the action letter and, except for kNew, the amount in decimal |
| ActionText.MergeFromAlternates | tetris_common.cc:38-55 | the merge leaves no two neighbouring actions of one kind and begins with the kind of the held action |
| ActionText.MergeFromKeeps | tetris_common.cc:38-55 | an already alternating list passes through the merge unchanged |
| ActionText.MergeSpec | tetris_common.cc:38-55 | merging yields an alternating list and is the identity on alternating lists |
| ActionText.JoinSnoc | tetris_common.cc:25-26 | appending with a separating comma extends the comma-joined list by one part |
| ActionText.CloseRun | tetris_common.cc:47-48 | hold.AppendTo(&res) extends the joined text of the closed runs by one more run |
| ActionText.MergeStep | tetris_common.cc:44-50 | one loop iteration either adds to the held amount or closes the run |
| ActionText.RunCloses | tetris_common.cc:47-49 | a change of kind closes the held run: it joins the closed runs and the new run starts with the current action |
| ActionText.Join | tetris_common.cc:38-55 | Join returns the comma-joined texts of the merged runs of the action list |
| ActionText.TwoDigitsBelow100 | tetris_common.cc:29-34 | an amount written with at most two digits is below 100 |
| ActionText.ParseText | tetris_common.cc:25-36 | the text of an action with an amount below 100 reads back as that action |
| ActionText.ParseTexts | tetris_common.cc:25-36 | a list of such texts reads back as the list of actions |
| ActionText.NoCommaInText | tetris_common.cc:27-35 | the text of one action holds no comma, so the commas separate the actions |
| ActionText.JoinRoundTrip | tetris_common.cc:38-55 | reading the joined text back gives the merged action list when every merged amount is below 100 |
| ActionText.JoinNonEmpty | tetris_common.cc:38-55 | the joined text of a non-empty list is not empty |
| Routes.FitsAt | tetris_common.cc:79-94 | the fit test seen through a linked test answers Fits and accepts only positions on the board |
| Routes.LinkedInBoard | tetris_common.cc:83-85 | a position that Fits is within the walls and above the floor |
| Routes.Step | tetris_common.cc:420-467 | a unit of the replay that succeeds ends on a position that Fits |
| Routes.ApplyN | tetris_common.cc:421-427 | a run of n > 0 units that succeeds ends where the piece fits; zero units leave it in place |
| Routes.ApplyAction | tetris_common.cc:413-419 | an accepted action leaves the piece in place or where it fits |
| Routes.Apply | tetris_common.cc:412-469 | an accepted replay ends at the start or where the piece fits |
| Routes.ApplyNNext | tetris_common.cc:421-427 | a run of n + 1 units is a run of n units followed by one more |
| Routes.ApplyNMoved | tetris_common.cc:442-453 | an accepted run of moves shifts the piece by exactly its amount |
| Routes.ApplyNFailed | tetris_common.cc:423-426 | once a unit is refused, every longer run is refused |
| Routes.MissedWalk | tetris_common.cc:311 | when unit k + 1 is refused, the amount cast to uint8_t does not reach the position n units away |
| Routes.ApplyAppend | tetris_common.cc:412-469 | replaying a + b is replaying a, then b from where a ends |
| Routes.ApplyPrefixFailed | tetris_common.cc:412-469 | a replay refused on a prefix is refused on the whole list |
| Routes.ApplyNoNew | tetris_common.cc:417-419 | a successful replay holds no kNew |
| Routes.ApplyNDescends | tetris_common.cc:455-466 | no unit moves the piece up |
| Routes.ApplyDescends | tetris_common.cc:412-469 | a replay never ends higher than it started |
| Routes.ReplayUnit | tetris_common.cc:420-466 | one unit performs the range check of its kind and then Fits, as the replay function states |
| Routes.ReplayAction | tetris_common.cc:413-468 | one action performs its units in turn, or refuses kNew |
| Routes.PlacedCanCollapse | tetris_common.cc:96-115 | placing a piece on a board without full rows leaves full rows only within four consecutive rows |
| Routes.ReplayActions | tetris_common.cc:412-469 | the replay loop over the actions computes Apply from the entry position |
| Routes.ReplayAndVerify | tetris_common.cc:402-479 | ReplayAndVerify is true exactly when the piece fits at entry, every action replays, and placing and collapsing yields the target's rows |
| Routes.AppendedOnce | tetris_common.cc:247-315 | appending a replaying leg to a route extends it to the leg's end |
| Routes.JoinLegs | tetris_common.cc:334-335 | two routes appended one after the other make one route |
| Routes.RotDistance | tetris_common.cc:254-258 | the number of turns from one rotation to another is below the rotation count and zero only when they are equal |
| Routes.NextRotWraps | tetris_common.cc:256 | (rot + 1) & (cnt - 1) wraps the last rotation to 0 |
| Routes.TurnUnit | tetris_common.cc:255-257 | one turn tests Fits at the rotation the replay's next kRotate unit reaches |
| Routes.RotateRouteAppend | tetris_common.cc:247-263 | it appends the turns to toRot, or nothing, and succeeds exactly when replaying those turns ends at toRot |
| Routes.StepMove | tetris_common.cc:429-466 | where the unsigned check holds, one unit of a move succeeds exactly when the piece fits one unit further |
| Routes.WalkUnit | tetris_common.cc:270-271 | unit i + 1 of a walk tests Fits where the replay's unit leads |
| Routes.WalkSteps | tetris_common.cc:270-272 | a finished walk of n units reaches the position n units away, and a stopped walk is refused by the replay at the same unit |
| Routes.Walk | tetris_common.cc:270-272 | the stepping loop succeeds exactly when the replay of the n-unit move does |
| Routes.HorizontalRouteAppend | tetris_common.cc:266-281 | it appends the slide to toX, or nothing, and from a non-negative column succeeds exactly when replaying the slide reaches toX |
| Routes.DropRouteAppend | tetris_common.cc:304-312 | it appends one kDown of the distance cast to uint8_t, and from a non-negative row succeeds exactly when the replay reaches toY |
| Routes.AppendRouteNaive | tetris_common.cc:284-315 | a successful naive route appends actions that replay from `from` to `to`, and a target above the start is refused; from a start on the board it succeeds exactly when NaiveOk holds: the turn then the slide, or else the slide then the turn, replay to the target's column and rotation, and the drop replays from there to the target |
| Routes.SetFlag | tetris_common.cc:334 | setting a clear option flag leaves fewer flags clear, so the recursion ends |
| Routes.FlagValues | tetris_common.cc:326-385 | the four option flags are the bits 1, 2, 4 and 8 |
| Routes.AppendRoute | tetris_common.cc:318-400 | a successful route appends actions that replay from `from` to `to`, a failed one appends nothing, and a target above the start is refused; from a start on the board it succeeds whenever the naive route replays (NaiveOk), since it tries that route first |
| Routes.BottomDetours | tetris_common.cc:325-340 | each detour through a column beside the target is a route when it succeeds |
| Routes.TopDetours | tetris_common.cc:342-357 | each detour through a column beside the start is a route when it succeeds |
| Routes.DropDetour | tetris_common.cc:359-368 | the detour through the row above the target is a route when it succeeds |
| Routes.PrevRot | tetris_common.cc:374 | rot ? rot - 1 : cnt - 1 stays below the rotation count |
| Routes.PrevRotDistance | tetris_common.cc:374 | stepping one rotation back moves one turn further from the target rotation |
| Routes.TSpinDetours | tetris_common.cc:370-382 | each t-spin detour is a route when it succeeds |
| Routes.InitialSpinDetours | tetris_common.cc:384-397 | each detour through another starting rotation is a route when it succeeds |
| Routes.TryPosition | tetris_common.cc:224-239 | a candidate found at one position is a move ending there; the position is reported, or refused by the route finder, exactly when it is a resting position (the piece fits there and not one row lower, and leaves the top row empty), never both; a refused position is one the naive route from an entry position on the board does not reach |
| Routes.RowMoves | tetris_common.cc:219-241 | the scan of one row keeps what has been found so far a set of moves, one per column and rotation, each the lowest resting position of its column not refused a route, the refused positions resting ones the naive route from the entry position does not reach, the earlier rotations complete; it only clears bits of remaining_x_bitmask, and every column left in it has every resting position from this row down refused |
| Routes.ColumnMove | tetris_common.cc:223-240 | one column either yields the lowest unrefused resting position of that column as a new move and clears its bit, or leaves the bit set with every resting position of the column from this row down refused; a position is refused only when the naive route from the entry position does not reach it; the other bits are untouched |
| Routes.OccupiedNotResting | tetris_common.cc:221 | a column occupied in row y has no resting position in row y, which is why set_bits(remaining_x_bitmask & ~row) skips it |
| Routes.OpenBelow | tetris_common.cc:219-224 | a column refused down to the row below stays refused when this row holds no resting position or a refused one |
| Routes.OpenLowest | tetris_common.cc:218-239 | scanning from the bottom row up, the first position that yields a candidate is the lowest unrefused resting position of its column |
| Routes.OpenMore | tetris_common.cc:233-234 | a column stays refused as the route finder refuses more positions |
| Routes.RotationComplete | tetris_common.cc:217-243 | once every row of a rotation is scanned, each column either was cleared by a candidate or had all its resting positions refused, so completeness extends to that rotation |
| Routes.RowStep | tetris_common.cc:221-240 | one column of the row scan keeps what has been found a set of lowest unrefused moves and keeps the tried columns refused down to this row |
| Routes.RowOpenStep | tetris_common.cc:221 | trying the lowest column of set_bits keeps the scan of the row in order for the columns after it |
| Routes.ExtendColumns | tetris_common.cc:239 | a candidate in a column still in remaining keeps one candidate per column once that column is cleared |
| Routes.ExtendMoves | tetris_common.cc:225-236 | appending a move keeps every candidate a move |
| Routes.FindAllMoves | tetris_common.cc:213-244 | no candidate when the piece does not fit at its entry position; otherwise every candidate is a move of the piece from the entry position, at most one per column and rotation, each the lowest resting position of its column that the route finder did not give up on, and every column of every rotation holding such a position has a candidate; the route finder gives up only on positions the naive route from an entry position on the board does not reach |
| Routes.ScannedReachesNaive | tetris_common.cc:213-244 | when the piece fits at its entry position on the board, every resting position the naive route reaches has a candidate in its column, at that position or below it |
| Routes.MoveReplays | tetris_common.cc:402-479 | every candidate FindAllMoves reports replays to its own board, which is one step later, has row 0 empty and no full row before the last step |
| Search.PrepareAbortThreshold | search.cc:50-53 | the array holds, for each of the kSteps steps, the number parsed from the matching comma-separated part, 0 where parsing fails or parts run out |
| Search.AbortThresholds | search.cc:33 | g_abort_threshold holds one threshold per step, read from the matching part of the flag |
| Search.ThresholdsRoundTrip | search.cc:50-53 | thresholds written out comma-separated read back unchanged, with 0 after the last one |
| Search.Root | search.cc:59-64 | the root node holds the initial board, its cached Quality and height, no parent and no actions (RootState) |
| Search.NotBetterTransitive | search.cc:113-116 | "not better than" (higher score, or equal score and fewer clears) is transitive |
| Search.InsertAllKeyed | search.cc:108-122 | adding nodes keeps every node stored under its own board |
| Search.InsertAllKeys | search.cc:108-122 | adding nodes keeps every board and adds exactly the boards of the added nodes |
| Search.InsertAllMonotone | search.cc:117-121 | the node stored under a board never gets worse |
| Search.InsertAllFrom | search.cc:117-121 | every stored node is the old one or one of the nodes added |
| Search.InsertAllBest | search.cc:108-122 | whatever the order of additions, the node finally stored under a board is at least as good as every node added for it |
| Search.StateCollector.constructor | search.cc:131-133 | a new collector holds no node and satisfies its invariant |
| Search.StateCollector.Add | search.cc:108-122 | Add stores the node under its board, replacing the node there only when the new one is better |
| Search.StateCollector.MoveTo | search.cc:124-129 | MoveTo appends to res exactly the stored nodes, one per board, keeps what res held and empties the collector |
| Search.Drain | search.cc:125-128 | the walk over the stored nodes lists exactly the stored nodes, no two on the same board |
| Search.KeptChild | search.cc:233-270 | a node kept for a legal move of st's piece is a child of st |
| Search.KeptChildren | search.cc:233-270 | every node SearchFrom keeps is a child of st: one step later, st as parent, its actions replay to its board |
| Search.KeptPassed | search.cc:234-255 | every kept node passed IsOk, and one that cleared 1 to 4 lines came from a board at least kThresholdHeight tall holding at least kThresholdOccupied cells |
| Search.KeptAdmitted | search.cc:233-270 | every node SearchFrom keeps is Admitted: a child of st that passed IsOk and the gate on clearing |
| Search.AddChild | search.cc:234-269 | one iteration adds to the collector exactly the node kept for the candidate, if any |
| Search.KeepChild | search.cc:234-269 | the gate on clearing, IsOk and the replay check keep exactly the candidates KeptOne keeps |
| Search.Replay | search.cc:257-264 | the replay check on a candidate of FindAllMoves succeeds, so the exit is unreachable |
| Search.BuildChild | search.cc:266-269 | the new node holds the candidate's board, its Quality and height, st as parent and the candidate's actions |
| Search.KeptOneCases | search.cc:234-255 | a candidate is dropped exactly when the gate forbids its clear or IsOk fails |
| Search.AddChildren | search.cc:233-270 | the loop adds every kept node to the collector in order |
| Search.MovesOf | search.cc:222-227 | the moves of the piece kBricks[step] reported by FindAllMoves on st's board form a scan of st (ScanOf); each is a move of that piece whose actions replay to its board, and there is one only when the piece fits at its entry position; the scan leaves out no resting position the naive route reaches |
| Search.ScanNotEmpty | search.cc:222-227 | the scan of a node has a move whenever the piece fits at its entry position and the naive route reaches some resting position of the node's board |
| Search.InsertAllKeeps | search.cc:117-121 | adding nodes with Add never loses a stored key and never makes the node stored under it worse |
| Search.KeptInserted | search.cc:233-271 | after the kept nodes of st are added, every entry of the collector is the old one or an Admitted child of st |
| Search.InsertAllAppend | search.cc:108-122 | adding a + b is adding a, then b |
| Search.SearchFrom | search.cc:221-271 | the collector ends as the old one with Kept added in order: the children built from the candidates of FindAllMoves for st's piece (ScanOf ties them to that scan, which has a move in every column where the naive route reaches a resting position) that pass the clearing gate and IsOk; so no stored node gets worse, and every node new in the collector is Admitted: a child of st that passed IsOk and the gate |
| Selection.AtLeastOne | search.cc:393 | std::max<uint32_t>(collapse_count_, 1) is at least 1 and is the count itself when that is positive |
| Selection.AheadRank | search.cc:287-293 | the sort comparator orders by the key, then by BricksComp: the lexicographic order of the key followed by the board's words |
| Selection.AheadOrder | search.cc:287-293 | the comparator is a strict weak order, as std::sort requires: irreflexive, asymmetric, transitive, with "not ahead" transitive |
| Selection.InsertByKeyMultiset | search.cc:287-293 | inserting into the sorted list adds exactly the entry |
| Selection.InsertFrontSorted | search.cc:287-293 | an entry ahead of the first of a sorted list can head it |
| Selection.HeadStaysFirst | search.cc:287-293 | the head of a sorted list is ahead of nothing inserted after it |
| Selection.ConsSorted | search.cc:287-293 | a sorted list stays sorted under a head that no entry is ahead of |
| Selection.InsertByKeySorted | search.cc:287-293 | inserting keeps the list sorted |
| Selection.SortedBySpec | search.cc:287-293 | the reference sort is a sorted permutation of its input |
| Selection.Sort | search.cc:287-293 | std::sort leaves the same entries, sorted by the comparator |
| Selection.AncestorsOkAll | search.cc:319-331 | an entry passes the ancestor test exactly when each of its first \|ancestor_max\| ancestors is within its quota or carries the key of that ancestor's last pick |
| Selection.BumpedCount | search.cc:342-348 | a pick adds to each ancestor's counter the number of times it appears among the pick's first ancestors, and changes no other counter |
| Selection.HeightQuotaBound | search.cc:333-334 | at most height_max picks of any one height carry a key other than the zero key |
| Selection.CheckAncestors | search.cc:323-330 | the ancestor loop decides the ancestor test |
| Selection.BumpAncestors | search.cc:343-348 | the counting loop increments quota_map[ancestor].cnt for the first ancestors |
| Selection.KeyBelow | search.cc:287-293 | a key no greater than one below a third is below the third |
| Selection.SkipStep | search.cc:331-334 | an entry failing a quota test stays in from |
| Selection.PickStep | search.cc:336-351 | an entry passing the quota tests, while picks remain or with the last pick's key, is picked |
| Selection.Picking | search.cc:342-351 | a pick keeps every quota respected and bumps the counters of its ancestors |
| Selection.PickSorted | search.cc:319-351 | the picks come in sorted order |
| Selection.StopStep | search.cc:336-339 | once n picks are made, the loop stops at the first entry whose key differs from the last pick's, and every entry from there stays in from |
| Selection.StopTop | search.cc:336-339 | when nothing was skipped, the picks are the top entries and their ties |
| Selection.EndStep | search.cc:319-353 | a loop that looks at every entry meets the selection's specification |
| Selection.SelectedPermuted | search.cc:287-354 | the selection of the sorted list is the selection of from, and what stays behind came from from |
| Selection.CountHeight | search.cc:349 | height_info.cnt++ keeps each height's counter equal to the number of picks of that height |
| Selection.Greedy | search.cc:319-353 | the reference selection loop: a quota refusal leaves the entry behind, the n = 0 key change ends the walk with every later entry behind, and any other entry is picked |
| Selection.GreedySkip | search.cc:320-334 | an entry that an ancestor quota or the height quota refuses, counted against the earlier picks, stays behind and the walk goes on |
| Selection.GreedyStop | search.cc:336-339 | once no pick is wanted, an entry passing the quotas with a key other than the last pick's ends the walk, leaving it and every later entry behind |
| Selection.GreedyPick | search.cc:336-351 | an entry passing the quotas, while picks are wanted or with the last pick's key, is picked |
| Selection.GreedySelectedFrom | search.cc:319-353 | from any state the loop can reach, the greedy walk ends in a selection |
| Selection.SkipSelected | search.cc:331-334 | after a refusal the walk still ends in a selection |
| Selection.PickSelected | search.cc:336-351 | after a pick the walk still ends in a selection |
| Selection.GreedySelected | search.cc:319-353 | the greedy walk over sorted entries picks a sorted sub-multiset within the quotas, n picks plus the ties of the last, and the top n with ties when no quota binds |
| Selection.GreedyKeepsPicks | search.cc:350-351 | the walk never drops a pick it has made |
| Selection.FreshAncestorsOk | search.cc:312-317 | before any pick every ancestor counter is zero, so positive maxima pass |
| Selection.GreedyTakesBest | search.cc:319-351 | with every quota positive the first sorted entry is the first pick, so a non-empty from yields a non-empty selection |
| Selection.TopN | search.cc:287-353 | MoveTopN's selection: the greedy outcome over some order of from sorted by the comparator |
| Selection.TopNSelected | search.cc:287-353 | every outcome of MoveTopN's selection is a selection of from |
| Selection.Moved | search.cc:277-357 | what one MoveTopN call moves and leaves: nothing for n = 0, everything for a short from, otherwise the greedy selection |
| Selection.Consider | search.cc:320-352 | one iteration applies the ancestor and height quotas, the stop rule and the pick with its counters, taking the step the greedy reference takes: a stop ends in the reference's outcome, otherwise the reference from the next entry has the same outcome |
| Selection.SelectTop | search.cc:319-353 | the loop's picks and left-over entries are exactly the greedy reference's outcome on the sorted entries, a selection within the quotas |
| Selection.MoveTopN | search.cc:277-357 | n = 0 moves nothing; a short from moves whole, appended to to; otherwise the picks appended to to and the entries left in from are the greedy outcome over a sorted order of from; to keeps what it held and no entry is lost or duplicated |
| Selection.AsWrittenLosesPicks | search.cc:280-285 | with n > 0 and a from of at most n entries, the short branch as written leaves to holding other entries than to + from, whereas the intended outcome (Moved) picks all of from to append to to |
| Selection.MaxScore | search.cc:366-372 | the greatest score of the layer: an upper bound reached by some node, 0 for none |
| Selection.MaxHeight | search.cc:366-372 | the greatest occupied height of the layer: an upper bound reached by some node, 0 for none |
| Selection.Maxima | search.cc:366-372 | the first loop computes the greatest score and the greatest height |
| Selection.Survivors | search.cc:373-377 | the nodes kept are exactly those within ignore_score_threshold of the best score and ignore_height_threshold of the greatest height |
| Selection.EraseIf | search.cc:373-377 | std::erase_if keeps the surviving nodes in order |
| Selection.ChooseForNextStep | search.cc:360-403 | Chosen: the choice is all the survivors of the pruning when they fit within the two keep counts (so an empty layer gives an empty choice), and otherwise the picks by average score per clear followed by the picks by quality from what the first pass left (TwoPasses) |
| Selection.TwoPasses | search.cc:386-402 | the two MoveTopN calls: picks by score from the survivors, then picks by quality from what is left, one after the other |
| Selection.TakeBest | search.cc:386-402 | the result is MoveTopN's picks by average score per clear from the survivors followed by its picks by quality from the entries the first call left, with no entry duplicated |
| Selection.BothPasses | search.cc:386-402 | two moves chained as ChooseForNextStep chains them make up its two passes |
| Selection.TiedLayerAsWritten | search.cc:280-285 | when every survivor has the same key by score, with no ancestor quota, room under the height quota and g_quality_keep_count > 0, the first pass takes all of them, so the second call's from is empty and, as written, its short branch leaves res empty |
| Solve.BestKey | search.cc:175-178 | global_best_key_func is the tuple of score, step and quality |
| Solve.OutranksOrder | search.cc:182-184 | the global-best update compares by a strict order that never lowers the score |
| Solve.UpdateBest | search.cc:179-188 | Improved: the new global best is the old one or a new node that outranks it, and no new node outranks it |
| Solve.NoSolution | search.cc:164 | the empty Solution has no actions, no scores and the initial board |
| Solve.Reverse | search.cc:417 | std::reverse puts entry i at position \|s\| - 1 - i |
| Solve.ReverseAppend | search.cc:417 | reversing a concatenation reverses the order of its parts |
| Solve.ReverseReverse | search.cc:411-417 | reversing twice gives the sequence back, which undoes the backwards gathering |
| Solve.GatherStep | search.cc:411-416 | each iteration appends one node's actions backwards and a kNew, keeping the chain of the rest in front of the reversal of what was gathered |
| Solve.MakeSolution | search.cc:405-419 | the solution holds the node's board, the score log and the actions of its ancestry from the root, each piece introduced by kNew |
| Solve.LastNew | search.cc:411-416 | the index of the last kNew, if any |
| Solve.LastNewOfPiece | search.cc:414 | the last kNew of one more piece's actions is the one that introduces it |
| Solve.PlayPiece | search.cc:405-419 | a chain that plays to a board followed by a kNew and actions that replay from that board plays to where they lead |
| Solve.ReplayedNoNew | tetris_common.cc:417-419 | the actions of a piece that replays hold no kNew |
| Solve.RootReached | search.cc:148-151 | the root is reached with an empty chain |
| Solve.ChildReached | search.cc:266-269 | a child of a reached node is reached one step on |
| Solve.ChildChain | search.cc:411-416 | a child's chain is its parent's, a kNew and its own actions |
| Solve.ChildPiece | search.cc:257 | a child's actions replay from its parent's board to its own |
| Solve.SoundHeight | search.cc:62 | the cached height of a node is below kH, its top row being empty |
| Solve.StepsMatch | search.cc:161-166 | the step check passes exactly when every node of the layer is at this step |
| Solve.SearchedRoot | search.cc:148-151 | every Searched run record starts from the root alone, with the root as best |
| Solve.SearchedLast | search.cc:159-193 | the last step of a Searched run record had its layer at that step, collected its Expansion, chose the next layer from it and updated the best over it, after a Searched record of the steps before |
| Solve.SearchedStep | search.cc:158-193 | a Searched run record taken one step further by such a step stays Searched |
| Solve.UnbeatenStep | search.cc:179-188 | the global best, never below the root and outranked by no node collected so far, stays so as one more step's nodes are taken in |
| Solve.RunningRoot | search.cc:147-154 | the step loop starts from the root: no score, the root as best and layer, and the run record holding the root alone |
| Solve.Expand | search.cc:168-170 | the collector ends as the old one with the Expansion of the layer added: for each node in order, the nodes SearchFrom keeps from its scan of moves, each scan a FindAllMoves report that misses no resting position the naive route reaches; everything collected is reached, one step on |
| Solve.ExpansionStep | search.cc:168-170 | the expansion of one more node is the expansion so far followed by that node's kept children, and its scan joins the scans |
| Solve.Advance | search.cc:159-193 | one step keeps every node reached and never lowers the best score; it stops exactly when a node of the layer is at another step or the best score is below the threshold; with the layer at this step, the run record taken one step further is Searched: next is the layer's Expansion listed once per board, over scans that miss no resting position the naive route reaches, the new layer is Chosen from next and the new best is Improved over next |
| Solve.ScoreLogMeans | search.cc:192-194 | a score log is non-decreasing and at or above the thresholds throughout |
| Solve.RunSteps | search.cc:158-216 | the step loop either logs one best score per step against the thresholds, the last being the best node's, or stops at the first unlogged step with the best score below that step's threshold; the run record it returns is Searched (each step's scans missing no resting position the naive route reaches) and ends in the best node, which no node collected at any step outranks |
| Solve.Stage | search.cc:158-194 | one pass advances (its Expansion built from scans that miss no resting position the naive route reaches), extends the run record by the step and pushes the step's best score; with the layer at this step it stops exactly when the best score is below the step's threshold, and the step loop's invariant (Running) holds one step on |
| Solve.PushScore | search.cc:194 | score_by_step.push_back keeps the log non-decreasing and above the thresholds |
| Solve.SolutionDelivered | search.cc:218 | the solution written for a reached best node and a full log delivers: its actions play to its board, whose score ends the log |
| Solve.Solve | search.cc:145-219 | Solve returns the empty solution or one whose actions play from the initial board to its final board, with a full non-decreasing score log above the thresholds; it is empty exactly when it does not deliver, and then the run stopped at a step whose global best scored below that step's threshold, so some threshold is positive; a delivered solution is the best node of a Searched run of kSteps steps, whose scans miss no resting position the naive route reaches, and no node collected at any step outranks it |
| Genetic.IntRangeValue | genetic.py:27-30 | int_range_calc(lo, hi)(x, bits): lo + (hi - lo) * x floored by 2^bits; IntRangeBounds states its range |
| Genetic.FloatRangeValue | genetic.py:21-24 | float_range_calc(lo, hi)(x, bits) before formatting: lo + (hi - lo) * x / 2^bits; FloatRangeBounds states its range |
| Genetic.IntRangeBounds | genetic.py:27-30 | int_range_calc yields a value in [lo, hi) for a value of `bits` bits |
| Genetic.FloatRangeBounds | genetic.py:21-24 | float_range_calc yields a value in [lo, hi) for a value of `bits` bits, before formatting |
| Genetic.ChoiceValue | genetic.py:33-36 | choice_calc yields one of the choices, and fails exactly where Python raises IndexError |
| Genetic.PrefixBits | genetic.py:63-68 | the widths of a prefix of the genes add up to no more than the total |
| Genetic.Offset | genetic.py:63-68 | the offset of gene k leaves room for its digits within the genome |
| Genetic.GeneSlice | genetic.py:65 | genome[off:off+gene.bits] holds exactly gene.bits digits |
| Genetic.GenomeBitsValue | genetic.py:57 | GENOME_BITS is 34 |
| Genetic.BinaryValue | genetic.py:65 | int(s, 2) of a string of n digits is below 2^n |
| Genetic.Params | genetic.py:60-68 | the flags of a genome never fail when no gene is a choice |
| Genetic.GenomeToParams | genetic.py:60-69 | the loop over the genes with the offset `off` produces the flags of every gene joined by spaces |
| Genetic.ReadGene | genetic.py:65-68 | one pass reads gene i's digits starting at off and moves off past them |
| Genetic.AssembleFails | genetic.py:66 | a gene whose value fails makes the flags fail |
| Genetic.AssembleAll | genetic.py:64-68 | when every gene's value succeeds the flags are the tokens built gene by gene |
| Genetic.FlagsGrow | genetic.py:67 | each pass appends one `--name=value` token |
| Genetic.TokenNoSpace | genetic.py:67 | a token holds no space when the gene's name and value hold none |
| Genetic.ParamsSplit | genetic.py:69 | str_params.split(' ') gives back exactly the flags joined by ' '.join when no token holds a space |
| Genetic.Binary | genetic.py:134 | the binary digits of n read back as n |
| Genetic.ZerosValue | genetic.py:134 | leading zeros do not change the value of binary text |
| Genetic.PadBinaryFits | genetic.py:134 | '{:0{}b}'.format(n, width) for n below 2^width is exactly width digits and reads back as n |
| Genetic.BinaryLength | genetic.py:134 | the binary digits of n are no more than any width n fits in |
| Genetic.InitialGenomeStep | genetic.py:131-134 | each pass of the loop appends gene k's padded starting value |
| Genetic.InitialGenomeGenes | genetic.py:129-135 | the initial genome has the total width and its gene k reads back as gene k's starting value |
| Genetic.InitialLength | genetic.py:130-134 | the initial genome has the total width of the genes and is binary |
| Genetic.InitialSliceLast | genetic.py:134 | the last gene's digits in the initial genome read back as its starting value |
| Genetic.InitialSliceFront | genetic.py:134 | appending one more gene leaves the earlier genes' digits in place |
| Genetic.FrontSlice | genetic.py:65 | gene k's digits read the same from a genome and from its prefix that holds genes up to k |
| Genetic.GeneListFits | genetic.py:46-54 | every starting value of GENE_LIST fits its gene's width |
| Genetic.Not | genetic.py:77-81 | not_ swaps '0' and '1' |
| Genetic.Flip | genetic.py:137-138 | s[:j] + not_(s[j]) + s[j+1:] flips digit j and keeps every other |
| Genetic.InitialGenomesOf | genetic.py:129-139 | get_initial_genomes yields the initial genome, then the initial genome with digit i flipped for each i |
| Genetic.InitialGenomeLength | genetic.py:129-135 | the initial genome of a fitting gene list is a genome of GENOME_BITS binary digits |
| Genetic.InitialGenomesAreGenomes | genetic.py:129-139 | every initial genome is a genome |
| Genetic.GetInitialGenomes | genetic.py:129-139 | 35 genomes: the initial one and each of its 34 one-digit variants |
| Genetic.InitialGenomesDistinct | genetic.py:129-139 | the initial genomes are pairwise distinct |
| Genetic.Random.Rand | genetic.py:72-74 | rand advances the context by the generator step and returns the new context |
| Genetic.FlipPositions | genetic.py:185-186 | the three draws of a mutation name digits below GENOME_BITS |
| Genetic.Mutations | genetic.py:185-187 | the mutation loop keeps the genome's length and binary digits and makes k draws |
| Genetic.MutationsKeep | genetic.py:185-187 | a mutant keeps every digit of its parent except the drawn ones |
| Genetic.KeepsDigit | genetic.py:185-187 | a digit that no draw names keeps its value |
| Genetic.Cross | genetic.py:198-199 | u[:i] + v[i:j+1] + u[j+1:] takes digits i to j from v and the rest from u |
| Genetic.Mutant | genetic.py:184-188 | the mutant is a genome |
| Genetic.MutantNearParent | genetic.py:184-187 | the mutant agrees with the parent the first draw picks except at the three drawn digits |
| Genetic.Crossing | genetic.py:191-199 | the crossover: two parents drawn, then two cut points when they differ, the children and the generator state after the draws; CrossingChildren states what the children are |
| Genetic.CrossingChildren | genetic.py:191-199 | crossing yields nothing or two genomes, each taking one of two different parents outside a range of at least two digits and the other inside it |
| Genetic.Breed | genetic.py:183-199 | the mutant followed by the crossed children and the generator state after all the draws; BreedChildren states what they are |
| Genetic.BreedChildren | genetic.py:183-199 | breeding yields the mutant and either no or two crossed children, all genomes |
| Genetic.InsertDescMultiset | genetic.py:167 | inserting into the sorted list adds exactly the entry |
| Genetic.ConsDesc | genetic.py:167 | a head scoring at least as much as every element keeps a list descending |
| Genetic.InsertDescSorted | genetic.py:167 | inserting keeps a list descending |
| Genetic.SortDesc | genetic.py:167 | list.sort(key=score, reverse=True) by stable insertion; it keeps the length, and SortDescSpec and SortDescStable state the rest |
| Genetic.SortDescSpec | genetic.py:167 | list.sort(key=score, reverse=True) yields a descending permutation |
| Genetic.SortDescPermutes | genetic.py:167 | the sort keeps the multiset of entries |
| Genetic.SortDescSorted | genetic.py:167 | the sort yields a list descending by score |
| Genetic.WithScoreCons | genetic.py:167 | the entries of one score in [x] + s are x, if it has that score, then those of s |
| Genetic.InsertDescStable | genetic.py:167 | x goes behind the entries of its own score |
| Genetic.InsertBehindHead | genetic.py:167 | inserting behind a head that scores at least as much keeps the equal-score entries in order |
| Genetic.BelowHead | genetic.py:167 | a descending list headed by a score below v holds no entry of score v |
| Genetic.NoneWithScore | genetic.py:167 | a list scoring below v everywhere holds no entry of score v |
| Genetic.SortDescStable | genetic.py:167 | the sort is stable: the entries of any one score keep their order |
| Genetic.TopOfSorted | genetic.py:167-168 | lst[:n] are n entries of the list, in descending order, each scoring at least as much as every entry left out |
| Genetic.PrefixBeatsRest | genetic.py:167-168 | in a descending list every entry after the first k scores no more than any of the first k |
| Genetic.Positive | genetic.py:176-179 | the comprehension keeps exactly the entries scoring above zero, in order |
| Genetic.Best | genetic.py:180-181 | the first n entries, highest score first, each at least as good as every entry left out |
| Genetic.GenomesOf | genetic.py:176-179 | the genomes of the entries, in order |
| Genetic.Relaxed | genetic.py:220 | max(x - 1000, 0) for every step's score |
| Genetic.GeneListIsFit | genetic.py:39-57 | GENE_LIST takes 34 digits, has no choice gene and every starting value fits |
| Genetic.CommandLineFlags | genetic.py:92-96 | a run is started with the flags genome_to_params produced for its genome, split on spaces, followed by its abort thresholds |
| Genetic.EntriesOf | genetic.py:165-166 | each done genome in insertion order, paired with the outcome of its flags |
| Genetic.Waiting | genetic.py:229-239 | the runs left after the harvest are no more than the runs |
| Genetic.DistinctTail | genetic.py:209 | after the first of runs with distinct genomes, none shares the first one's genome |
| Genetic.HarvestSplits | genetic.py:229-239 | every run ends up either still running or finished, and not both |
| Genetic.HarvestFiles | genetic.py:236-237 | a finished run's genome is filed under its flags, which get its outcome; what was there before stays and nothing else is filed |
| Genetic.WaitingFrom | genetic.py:239 | a run still running is one of the runs |
| Genetic.FinishedFrom | genetic.py:237 | a finished genome is the genome of one of the runs |
| Genetic.MutateStep | genetic.py:184-188 | the mutation draws from the generator exactly as the mutation specification says |
| Genetic.CrossStep | genetic.py:191-199 | the crossover draws from the generator exactly as the crossing specification says |
| Genetic.GenomeParams | genetic.py:212 | genome_to_params on a fitting gene list always succeeds |
| Genetic.PendingReplaced | genetic.py:125 | the driver's invariant does not depend on which genomes are pending, as long as they are genomes |
| Genetic.FinishedDistinct | genetic.py:229-239 | the finished genomes are listed once each |
| Genetic.WaitingDistinct | genetic.py:229-239 | the runs left running have distinct genomes |
| Genetic.FinishedHasOutcome | genetic.py:231-237 | every finished genome is the genome of a run that has an outcome |
| Genetic.LedgerAfterHarvest | genetic.py:229-239 | recording the finished runs keeps every done genome filed under flags that have an outcome, each in the order once |
| Genetic.FiledKeeps | genetic.py:237 | a done genome that did not finish again keeps its flags |
| Genetic.RunsAfterHarvest | genetic.py:229-239 | the runs left are genomes, distinct, and none of them is done |
| Genetic.HarvestConsistent | genetic.py:229-239 | ping's first loop keeps the driver's invariant |
| Genetic.LedgerAdd | genetic.py:213-214 | filing a genome that is not done under flags that have an outcome keeps the ledger sound |
| Genetic.CacheHitsTrans | genetic.py:213-216 | cache hits accumulate over several draws |
| Genetic.AllLaunchedMeans | genetic.py:241-242 | every run the refill loop starts was launched from its genome's flags |
| Genetic.AllLaunchedSnoc | genetic.py:241-242 | one more launched run keeps all started runs launched |
| Genetic.HarvestLoop | genetic.py:229-239 | the loop from the last run to the first records each finished run under its flags, files its genome and removes it |
| Genetic.WaitingDrop | genetic.py:239 | self.running[i:i+1] = [] removes run i, which sits at index i, exactly when it finished |
| Genetic.HarvestStep | genetic.py:229-239 | one iteration extends the harvest of the runs after i to the runs from i on |
| Genetic.EntryGenomes | genetic.py:176-179 | the genomes of done entries are genomes |
| Genetic.BestGenomes | genetic.py:176-181 | the best genomes are genomes |
| Genetic.BreedStep | genetic.py:183-199 | the breeding half of get_next_genome draws as the breeding specification says and yields genomes |
| Genetic.State.constructor | genetic.py:121-149 | the initial genomes are pending, no run is in progress, and done_genomes and results come from the cache |
| Genetic.State.GetBest | genetic.py:155-162 | get_best returns None exactly when nothing is done, otherwise the first done genome with the highest score |
| Genetic.State.GetBests | genetic.py:164-168 | get_bests(n) is min(n, number done) done entries in descending score order, none scoring less than an entry left out |
| Genetic.State.TopGenomes | genetic.py:176-181 | best_genomes is at most eight genomes |
| Genetic.State.GetNextGenome | genetic.py:170-201 | GenomeDrawn: the first pending genome when one is pending, the generator untouched; otherwise the last child bred from the best genomes, keeping the others pending; with no genome scoring above zero, no genome (the crash) after one draw of the generator |
| Genetic.State.IsRunning | genetic.py:209 | any(r.genome == genome for r in self.running) |
| Genetic.RunsGenome | genetic.py:209 | some run is of the genome |
| Genetic.State.File | genetic.py:213-214 | a cache hit files the genome under flags that already have an outcome |
| Genetic.State.Start | genetic.py:224-225 | a run of a genome neither done nor running joins the runs |
| Genetic.State.Consider | genetic.py:206-226 | Decided: a done or running genome changes nothing; otherwise a genome whose flags have an outcome is filed under them and appended to the order; otherwise a run of it with its flags and the abort thresholds of the 20 best starts, and only then Started |
| Genetic.State.Attempt | genetic.py:205-226 | one pass draws a genome as get_next_genome does (GenomeDrawn) and decides on the drawn genome as Consider does (Decided); no genome drawn is the crash, which happens exactly when nothing is pending and no done genome scores above zero and then files nothing and starts nothing |
| Genetic.State.Pass | genetic.py:204-226 | one pass of the run_new loop keeps the cache-hit record, changes the running list only by starting the drawn genome, and reports a crash exactly when nothing was pending and no done genome scored above zero; a crash in the first pass leaves done genomes and their order as they were |
| Genetic.State.RunNew | genetic.py:203-226 | run_new files the cache hits it meets and starts one run of a genome neither done nor running, whose abort thresholds come from the 20 best done genomes; it crashes only at a draw with nothing pending and nothing scoring above zero; with that at entry it crashes on its first draw |
| Genetic.State.Harvest | genetic.py:229-239 | the first loop of ping records every finished run, files its genome and removes it from the runs |
| Genetic.State.Launch | genetic.py:242 | one run_new of the refill loop either starts one launched run or starts none |
| Genetic.State.Refill | genetic.py:241-242 | the second loop starts launched runs until eight are in progress, or stops when run_new gives up |
| Genetic.State.RefillStep | genetic.py:241-242 | one turn starts one more launched run or none |
| Genetic.State.Ping | genetic.py:228-246 | ping records the finished runs, keeps the rest and starts launched runs until eight are in progress |

## Left out

- Concurrency: ThreadPool (thread_pool.h, thread_pool.cc) is not part of this model. SyncRunSpan is modelled as SearchFrom on each node in turn (`Solve.Expand`). The collector's seventeen mutex-guarded shards are one map keyed by the board, which is how the shards behave: a node's shard is a function of its board.
- FastHashBricks, BricksHasher and HashCombine: hashing only picks a shard or bucket. The model keys by the rows directly and leaves the hash values out.
- DebugString, ShapeDebugString, the fprintf diagnostics and the rusage progress report every 100 steps: output only, not modelled.
- main.cc is not part of this model. Solve's flags come in as parameters: the Quality penalties as `QualityFlags`, and the keep counts, parent quotas, height maxima and pruning thresholds as `Selection.Params`.
- PrepareFlags' floating-point parts are left out: g_quality_keep_count from total_keep times (1 - score_keep_ratio), and the SimpleAtof parent quotas. Their results are the `Selection.Params` fields. Only the integer abort-threshold parsing is modelled (`Search.PrepareAbortThreshold`).
- Decimal.ParseU32: SimpleAtoi's leading and trailing whitespace, a leading '+' and a leading '-' are not modelled. PrepareFlags (search.cc:51) ignores SimpleAtoi's result, and absl leaves the output unspecified when parsing fails; the model's choice for that case is a threshold of 0, the value the global array starts with and keeps for the steps past the last part. The empty part that genetic.py passes when it has no thresholds is such a failure.
- Solve.Solve: score_, collapse_lines_ and collapse_count_ are unbounded naturals. The uint32_t wrap-around of score_ is not modelled, because a clear adds at most kMul[3] x 200 = 2000 points, so 10000 pieces stay far below 2^32.
- Evaluation.Quality: the int accumulator is unbounded. Its values stay within 20 x 10 x 600 plus the penalties, far inside int for the default flags.
- Selection.Sort: std::sort is specified by its outcome, a sorted permutation. The comparator is a strict weak order, as std::sort requires (`Selection.AheadOrder`). The order in which std::sort compares and moves entries is not modelled.
- Node identity: StatePtr and intrusive_ptr reference counting are left out. Nodes are values, so two nodes equal in every field are one node here, and quota_map is keyed by the ancestor node value.
- Genetic.State.RunNew: the Python `while True` becomes a loop of at most `fuel` draws, and `OutOfFuel` reports a run_new that has not found a genome to start within them. The contract does not bound when `OutOfFuel` comes back: it does not say that every draw before it was a done, running or cached genome. The contract says nothing about which genomes the draws produce beyond the specifications of get_next_genome.
- Genetic.State.GetNextGenome: when no done genome scores above zero, Python raises ZeroDivisionError on `rand() % 0`. The model reports it as `Crashed` after drawing the one rand() call that precedes the failure.
- Genetic.State.constructor: load_cache's file reading and JSON decoding are left out. The cached done_genomes, its insertion order and the results come in as parameters, all empty when there is no cache. save_cache and the out/genetic.log lines are not modelled.
- Genetic.State.Harvest: Running's subprocess, temporary files and the regular expressions of poll are left out. Each run's outcome (None while it runs) is a parameter of ping, and CommandLineFlags states the command line a run is started with.
- Genetic.State.Ping: the final get_best report is a print and is not modelled. get_best itself is `Genetic.State.GetBest`.
- Dictionary order: done_genomes' iteration order is its insertion order, kept as the sequence `order`. results is a map, since only lookups are made in it.
- The gene list is a constructor parameter of `Genetic.State`, and `Genetic.GeneListIsFit` shows that GENE_LIST satisfies what the driver assumes of it. run_new calls genome_to_params twice on the same genome, and the model calls it once, since it is a pure function.
- Genetic.FloatRangeBounds: '{:.3f}'.format is a parameter `format` of the genome functions. The value is bounded before formatting, and the rounding of the text is not modelled.
- Genetic.GenomeToParams: the Python `assert(len(genome) == GENOME_BITS)` is a precondition, and so is a binary genome, since int(s, 2) raises ValueError on anything else. Every genome the driver produces is binary (`Genetic.InitialGenomesAreGenomes`, `Genetic.BreedChildren`).
- Routes.AppendRoute: the model proves that a route found is correct and that the naive route is always found when it replays. It does not prove that the detours find a route whenever one exists, and the source does not promise that.
- Routes.FindAllMoves: completeness is stated relative to the positions the route finder gave up on, a ghost set returned with the candidates. Each of them is a resting position that the naive route does not reach. Since the detours of AppendRoute are not proved complete (see the line above), the model does not promise a candidate in every column that has a resting position. It promises one in every column that has a resting position the naive route reaches (`Routes.ScannedReachesNaive`), or that the route finder otherwise did not refuse, and that each candidate is the lowest such position. The same bound carries over to SearchFrom, Expand, Advance, Stage, RunSteps and Solve.
- Solve.RunSteps: the run record (`Solve.Run`) is ghost state beside the step loop. The source keeps no such record. Per step it holds the layer, the collected nodes and the best. What each step did with them is stated inside the record (`Solve.Searched`, `Solve.SearchedLast`) rather than as separate clauses of RunSteps.
- utils.h's clz overloads are unused by the core and are not modelled. ctz and popcnt are modelled on unbounded naturals, each width's overload being the same function on its range.

## Findings

| source | as written | input that shows it | evidently intended | confidence | as-written member | corrected member |
|---|---|---|---|---|---|---|
| search.cc:281-285 | when `from` has at most n entries, MoveTopN does `*to = std::move(from)`, overwriting what `to` held | ChooseForNextStep's second call, with `to` already holding the score picks and `from` left with at most g_quality_keep_count entries: the score picks are lost | the short branch appends `from` to `to`, as the general branch does at search.cc:356 | not executed | Selection.TiedLayerAsWritten | Selection.MoveTopN |
