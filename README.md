# A verified model of the 2048 board engine

This project models the board engine of a terminal 2048 game, `2048/Board.c`,
over the `GameBoard` record of `terminal-2048/Board.h:25-34`. The record holds
16 slots in row-major order (`cell`, `isNew`, `isMerged`), the cached
`largestCell` with its display width `digits`, the milestone `goal`, `score`
and `moveCount`. Stepping one slot in a direction (`cellIndex`), finding the
edge of a line (`edgeIndex`), sliding one value with at most one merge
(`moveCell`), moving the whole board (`moveBoard`), the cache updates
(`updateDigits`, `updateLargestCell`), the feasibility tests (`dirPossible`,
`noPossibleMove`), seeding (`initCell`) and a new game (`newGameBoard`) are all
modelled.

Layout:

- `grid.dfy` (module `Grid`): index arithmetic and the visit order of
  moveBoard's double loop.
- `tally.dfy` (module `Tally`): the sum, occupancy, flag count, maximum and
  decimal width of the board.
- `engine.dfy` (module `Engine`): one function per routine on a value
  `BoardState`. It is the specification.
- `board.dfy` (module `Board`): class `GameBoard`, which keeps the three
  arrays and the five counters and updates them in place with the source's
  loops. Each method is proved to leave exactly the state that the matching
  `Engine` function computes.
- `slideproofs.dfy`, `moveproofs.dfy`, `packing.dfy`, `terminalproofs.dfy`,
  `seedproofs.dfy`, `potential.dfy` and `scenarios.dfy`: what the functions
  guarantee.

Directions are `char`, so the source's handling of an unknown command is
modelled: -1 from `cellIndex`/`edgeIndex`, and an unchanged board from
`moveBoard`. The calls to `rand()` become parameters. `valueDraw` stands for
the value draw; `indexDraws` is the sequence of slot draws that initCell's
rejection loop consumes.

Two facts about the caches shape what the model proves:

- initCell does not refresh `largestCell` (2048/Board.c:328-337), so a seeded
  4 can leave it below the true maximum of the cells
  (`SeedProofs.InitCellLeavesLargestStale`). The model proves `Consistent`
  instead: `largestCell` stays below `goal`, `digits` covers it, and it is
  never above the largest value on the board. A move refreshes the cache
  for every value it lands, so a move keeps an exact `largestCell` exact
  (`MoveProofs.MoveBoardKeepsMax`).
- `digits` starts at 3 and never shrinks (2048/Board.c:20, 282-284), so it is
  at least the digit count of `largestCell`, not equal to it.

## Model

| member | source | states |
|---|---|---|
| Grid.CellIndex | 2048/Board.c:36-60 | Answers -1 for an index outside 0..15 or an unknown direction. Otherwise it answers index-4, +4, -1 or +1, exactly when that lands in 0..15, and -1 when it does not. |
| Grid.DownToEdge | 2048/Board.c:75-76 | The 'd' loop ends in row 3 of the same column. |
| Grid.LeftToEdge | 2048/Board.c:79-80 | The 'l' loop ends in column 0 of the same row. |
| Grid.RightToEdge | 2048/Board.c:83-84 | The 'r' loop ends in column 3 of the same row. |
| Grid.EdgeIndex | 2048/Board.c:63-90 | Answers -1 for a bad index or direction. Otherwise it answers a slot with the same column in row 0 ('u') or row 3 ('d'), or the same row in column 0 ('l') or column 3 ('r'). |
| Grid.CellIndexLeavesRow | 2048/Board.c:48-59 | cellIndex does not check row wrap: cellIndex(4, 'l') is 3 and cellIndex(3, 'r') is 4, in another row. |
| Grid.AtEdgeIffNoDistance | 2048/Board.c:94-96 | A slot is its own edge exactly when it is zero steps from the edge; the distance is 0..3. |
| Grid.StepTowardEdge | 2048/Board.c:94-97 | Off the edge, cellIndex is the grid neighbour on the same line, with the same edge and one step closer. So moveCell's loop bound excludes the row wrap. |
| Grid.AdjacentIsCellIndex | 2048/Board.c:316-317 | dirPossible's guard, `cellIndex(i, c) == j` and `i != edgeIndex(i, c)`, holds exactly when `j` is the grid neighbour of `i`. |
| Grid.NeighbourOf | 2048/Board.c:316-317 | The same, for every slot `j` at once. |
| Grid.StepBack | 2048/Board.c:36-60 | A step and a step in the opposite direction return to the start. The neighbour reached by the first step is not on the opposite edge, so the step back exists. |
| Grid.VisitOrder | 2048/Board.c:175-176 | The double loop visits 12 slots. |
| Grid.VisitOrderAt | 2048/Board.c:149-176 | The k-th visited slot is `init + count * out_incre + countIn * in_incre`, using the constants of the switch. |
| Grid.VisitInnerNext | 2048/Board.c:176 | Along a line, the next slot is `in_incre` further. |
| Grid.VisitOuterNext | 2048/Board.c:175 | The next line starts `out_incre` further. |
| Grid.VisitSlotAt | 2048/Board.c:175-176 | The slot the counters point at is on the board, count + 1 steps from its edge, at position countIn along its line. |
| Grid.VisitSlot | 2048/Board.c:175-176 | The k-th visited slot is k / 4 + 1 steps from its edge, at position k % 4, and never on its edge. |
| Grid.VisitedAt | 2048/Board.c:175-176 | Every slot off its edge is visited. |
| Grid.VisitOrderIndices | 2048/Board.c:175-177 | Every visited slot is in 0..15. |
| Grid.VisitOrderInward | 2048/Board.c:147-181 | Lines are visited from the one next to the edge inward. The edge line is skipped. The 12 slots are distinct and are exactly the slots off the edge. |
| Tally.MaxOf | 2048/Board.c:288-296 | The scan answers a value that bounds every slot and is held by one (0 for no slots). |
| Tally.DecimalWidth | 2048/Board.c:277-280 | The do-while count is at least 1, and 10^(w-1) <= n < 10^w once n >= 1. |
| Tally.DecimalWidthMonotone | 2048/Board.c:276-285 | A larger value never has fewer digits. |
| Engine.UpdatedDigits | 2048/Board.c:276-285 | updateDigits keeps `digits` or raises it to the width of largestCell, so it is never below either. |
| Engine.Track | 2048/Board.c:123-130 | Only largestCell, digits and goal change. largestCell grows to cover the landed value. digits never shrinks and keeps covering largestCell. goal doubles only when a new largest value reaches it. |
| Engine.SeedValue | 2048/Board.c:330 | initCell places 2 or 4. |
| Engine.FirstEmptyFrom | 2048/Board.c:332-334 | The rejection loop settles on the first draw (mod 16) that names an empty slot; every earlier draw named a full one. |
| Engine.PossibleFrom | 2048/Board.c:314-321 | The scan from slot i answers true exactly when some slot from i on holds a value whose grid neighbour is empty or equal. |
| Engine.DirPossible | 2048/Board.c:311-325 | dirPossible answers true exactly when some non-empty slot has a grid neighbour in that direction that is empty or holds the same value. |
| Engine.EmptyFrom | 2048/Board.c:301-305 | The scan answers true exactly when some slot from i on is empty. |
| Engine.NoPossibleMove | 2048/Board.c:299-309 | Any empty slot gives false. On a full board it is `!dirPossible('u') && !dirPossible('l')`. |
| Board.GameBoard.constructor | 2048/Board.c:11-33 | newGameBoard zeroes the arrays, sets digits 3, score and moveCount 0 and goal 2048, seeds twice, and sets largestCell. Its state is exactly `NewGame` of the draws. |
| Board.GameBoard.MoveCell | 2048/Board.c:93-132 | The loop leaves exactly `AfterMoveCell` of the old state. |
| Board.GameBoard.ShiftInto | 2048/Board.c:100-106 | The four assignments of a shift give `Shift` of the old state. isNew travels with the value; isMerged does not. |
| Board.GameBoard.MergeInto | 2048/Board.c:110-115 | The merge doubles the target, empties the source, flags the target and adds the new value to the score: `Merge` of the old state. |
| Board.GameBoard.RefreshCaches | 2048/Board.c:123-130 | The cache refresh gives `Track` of the old state. |
| Board.GameBoard.MoveBoard | 2048/Board.c:135-184 | An unknown command returns at once. Otherwise the flags are reset, the double loop runs and the move is counted: exactly `AfterMoveBoard` of the old state. |
| Board.GameBoard.MoveLine | 2048/Board.c:176-180 | The inner loop extends the visited prefix of the order by one line of four. |
| Board.GameBoard.VisitCell | 2048/Board.c:177-179 | One visit: a slot holding a value moves; an empty slot is skipped. |
| Board.GameBoard.ClearFlags | 2048/Board.c:142-145 | The reset loop clears every isNew and isMerged flag and changes nothing else. |
| Board.GameBoard.UpdateDigits | 2048/Board.c:276-285 | The do-while loop counts the digits of largestCell; digits becomes the larger of the old value and that count. |
| Board.GameBoard.UpdateLargestCell | 2048/Board.c:288-296 | largestCell becomes the true maximum: it bounds every slot and is held by one. |
| Board.GameBoard.InitCell | 2048/Board.c:328-337 | The slot is the first draw that names an empty slot. It receives 2 or 4 (4 exactly when the value draw is 3 mod 4) and the isNew flag. |
| SlideProofs.AdvanceLocal | 2048/Board.c:100-116 | One pass touches only the slot it leaves and the slot it enters. Set isMerged flags stay set. |
| SlideProofs.AdvanceCounts | 2048/Board.c:101-115 | One pass keeps the sum of the values. A shift keeps the occupancy. A merge lowers it by one and sets one more isMerged flag. |
| SlideProofs.AdvanceLanding | 2048/Board.c:100-116 | The moving value lands on the target, doubled by a merge. The score grows by exactly the merged value. A shift carries isNew. |
| SlideProofs.SlideCounts | 2048/Board.c:96-131 | Over the whole loop the sum is kept and the move counter untouched. There is at most one merge, which lowers the occupancy by one and sets one flag. A start outside 0..15 does nothing. |
| SlideProofs.SlideLanding | 2048/Board.c:96-131 | The value ends on a slot holding it, or twice it after the one merge. The score grows by exactly that merged value. |
| SlideProofs.MoveCellBookkeeping | 2048/Board.c:93-132 | moveCell keeps the sum and merges at most once. Occupancy drops by the number of merges. The score grows by exactly the landed value on a merge and not otherwise. An index outside 0..15 changes nothing. |
| SlideProofs.MoveCellScore | 2048/Board.c:110-115 | The score never falls and changes only through a merge. |
| SlideProofs.SlideInLine | 2048/Board.c:94-131 | The bounded loop touches only its own line, between the start and the edge. It stops on the edge or in front of a slot it may not enter. |
| SlideProofs.MoveCellStaysInLine | 2048/Board.c:93-132 | Despite the row wrap of cellIndex, moveCell changes no slot of another line. It stops on the edge or before a real neighbour. |
| SlideProofs.SlideKeepsMerged | 2048/Board.c:108-109 | A different slot flagged isMerged and holding a value is never entered: it keeps its value. |
| SlideProofs.MoveCellRespectsMerged | 2048/Board.c:108-109 | moveCell never merges into a slot already merged in this move; that slot keeps its value. |
| SlideProofs.TrackConsistent | 2048/Board.c:123-130 | The refresh keeps largestCell below goal, goal at least 2048 and digits covering largestCell. |
| SlideProofs.AdvanceTracksMax | 2048/Board.c:100-130 | One pass keeps largestCell at or below the largest value if it was, and at or above every value if it was. |
| SlideProofs.SlideTracksMax | 2048/Board.c:96-131 | The same for the whole loop of moveCell. |
| SlideProofs.AdvanceKeepsTiles | 2048/Board.c:100-130 | One pass keeps every slot a tile below the goal, keeps largestCell below the goal and covered by digits. The caches only grow. |
| SlideProofs.AdvanceConsistent | 2048/Board.c:100-130 | One pass keeps the board consistent, including largestCell staying at or below the largest value. The caches only grow. |
| SlideProofs.SlideConsistent | 2048/Board.c:96-131 | The loop keeps the board consistent. largestCell, digits and goal never decrease. |
| SlideProofs.MoveCellConsistent | 2048/Board.c:93-132 | moveCell keeps the board consistent, and the caches never decrease. |
| SlideProofs.SlideKeepsNewClear | 2048/Board.c:101-105 | The loop never sets an isNew flag. |
| MoveProofs.MoveAllBookkeeping | 2048/Board.c:175-181 | The double loop keeps the sum. Occupancy falls by the number of new merge flags. The move counter is untouched. |
| MoveProofs.MoveAllScore | 2048/Board.c:175-181 | The score never falls and grows only when some visit merged. |
| MoveProofs.MoveAllNewClear | 2048/Board.c:175-181 | After the reset, the double loop leaves every isNew flag clear. |
| MoveProofs.MoveAllConsistent | 2048/Board.c:175-181 | The double loop keeps the board consistent. The caches never decrease. Each merge scores at least 4. |
| MoveProofs.VisitTracksMax | 2048/Board.c:177-179 | One visit keeps largestCell at or below the largest value if it was, and at or above every value if it was. |
| MoveProofs.MoveAllTracksMax | 2048/Board.c:175-181 | The same for the double loop. |
| MoveProofs.MoveBoardKeepsMax | 2048/Board.c:93-184 | If largestCell equals the largest value before moveBoard, it equals the largest value after it. |
| MoveProofs.ResetFacts | 2048/Board.c:142-145 | After the reset no flag is set, and a consistent board stays consistent. |
| MoveProofs.MoveBoardBookkeeping | 2048/Board.c:135-184 | An unknown command leaves the board unchanged. A move counts exactly one step, clears isNew and keeps the sum. It loses one occupied slot per merged slot, so occupancy never rises. The score never falls and is unchanged without a merge. |
| MoveProofs.MoveBoardConsistent | 2048/Board.c:135-184 | moveBoard keeps the board consistent, so largestCell stays at or below the largest value. largestCell, digits and goal never decrease. The score grows by at least 4 per merged slot. |
| MoveProofs.ImpossibleCellStays | 2048/Board.c:96-119 | In a direction dirPossible rejects, moveCell on any value changes nothing. |
| MoveProofs.MoveAllStill | 2048/Board.c:175-181 | In such a direction no visit of the double loop changes the board. |
| MoveProofs.MoveBoardImpossible | 2048/Board.c:135-184 | A move dirPossible rejects only clears the flags and counts the step; every value stays. |
| Packing.SlidePacks | 2048/Board.c:93-132 | When the slots in front of the start are packed (every value has a value in front of it), moveCell leaves its line packed up to the start. |
| Packing.SlideFlagsLanding | 2048/Board.c:93-132 | With the slots in front packed, moveCell sets at most one isMerged flag. It is on the landing slot, was clear before, lies nearer the edge than the start, and is set exactly when the value merged. |
| Packing.VisitPacks | 2048/Board.c:175-180 | Visiting the n-th slot of the order extends the packed part of the lines by that slot. |
| Packing.VisitFlags | 2048/Board.c:175-180 | Visiting the n-th slot keeps every flagged slot's value. The new flag lies in front of every slot still to visit. The score grows by exactly the value on the newly flagged slot. |
| Packing.MoveAllPacked | 2048/Board.c:175-181 | After n visits of the double loop, the visited slots are packed, every flagged slot holds a value in front of the slots still to visit, and the score has grown by exactly the sum of the flagged values. |
| Packing.MoveBoardPacked | 2048/Board.c:135-184 | After a move, every line is packed against its edge: no slot holding a value has an empty grid neighbour in the move's direction. Every flagged slot holds a value, and the score grows by exactly the sum of the values on the flagged slots. |
| Potential.AdvanceWeight | 2048/Board.c:100-116 | Take the weight to be the sum of value times distance to the edge. One pass lowers it by exactly the moving value. |
| Potential.SlideWeight | 2048/Board.c:96-131 | The bounded loop never raises the weight. It leaves it unchanged only when nothing moved, and lowers it when the first step enters. |
| Potential.VisitWeight | 2048/Board.c:177-179 | One visit never raises the weight and keeps it only by changing nothing. It lowers the weight when the slot can enter its neighbour. |
| Potential.MoveAllMonotone | 2048/Board.c:175-181 | Along the double loop the board either stays the same or its weight falls. |
| Potential.MoveBoardPossible | 2048/Board.c:311-325 | A move in a direction dirPossible accepts changes some value. |
| Potential.MoveBoardChangesIffPossible | 2048/Board.c:311-325 | For each direction, moveBoard changes the values exactly when dirPossible answers true. |
| TerminalProofs.FullOpposite | 2048/Board.c:307-308 | On a full board a direction is possible exactly when its opposite is. |
| TerminalProofs.RoomToMove | 2048/Board.c:300-305 | A board with an empty slot and a value has a possible direction. |
| TerminalProofs.NoPossibleMoveExact | 2048/Board.c:299-309 | noPossibleMove answers true exactly when the board is full and none of the four directions is possible, although it looks at 'u' and 'l' only. |
| TerminalProofs.NoPossibleMoveDecides | 2048/Board.c:299-309 | On a board holding a value, noPossibleMove answers false exactly when some direction is possible. |
| SeedProofs.InitCellPlaces | 2048/Board.c:328-337 | initCell fills exactly one empty slot with 2 or 4 and flags it new. Everything else stays, so occupancy grows by one and the sum by the value. |
| SeedProofs.DrawFor | 2048/Board.c:330 | Each of 2 and 4 has a value draw that yields it. |
| SeedProofs.InitCellReaches | 2048/Board.c:328-337 | Every empty slot and either value can come out of initCell. |
| SeedProofs.FullNeverSeeds | 2048/Board.c:332-334 | On a full board no sequence of draws ends the rejection loop. |
| SeedProofs.SeedValueTile | 2048/Board.c:330 | The seeded values are tiles. |
| SeedProofs.InitCellConsistent | 2048/Board.c:328-337 | initCell keeps a consistent board consistent and leaves largestCell alone. Values only rise, so largestCell stays at or below the largest value. |
| SeedProofs.InitCellLeavesLargestStale | 2048/Board.c:328-337 | Seeding a 4 where every value is below 4 leaves largestCell below the true maximum. |
| SeedProofs.BlankFacts | 2048/Board.c:15-22 | The zeroed board is consistent and empty. |
| SeedProofs.FirstSeed | 2048/Board.c:28 | The first initCell of a new game takes the first draw and leaves room for the second. |
| SeedProofs.NewGameCells | 2048/Board.c:11-33 | A new game is the blank board with two different slots seeded and flagged new, and no merge flag set. |
| SeedProofs.NewGameSeeds | 2048/Board.c:27-29 | Exactly two different slots hold 2 or 4 and are flagged new; all others are empty. |
| SeedProofs.NewGameOccupied | 2048/Board.c:27-29 | A new game has exactly two occupied slots. |
| SeedProofs.SeededConsistent | 2048/Board.c:14-29 | Both initCell calls are possible. The seeded board is consistent, with score and moveCount 0, digits 3 and goal 2048. |
| SeedProofs.NewGameConsistent | 2048/Board.c:11-33 | A new game is consistent, with score 0, moveCount 0, digits 3, goal 2048, and largestCell the larger seed. |
| SeedProofs.NewGameReaches | 2048/Board.c:27-29 | Any two different slots with any values 2 or 4 can be the seeds of a new game. |
| Scenarios.SkipEmpty | 2048/Board.c:177-178 | Visiting empty slots changes nothing. |
| Scenarios.LeftOrder | 2048/Board.c:160-164 | The left move visits columns 1, 2, 3, top to bottom. |
| Scenarios.MergeIntoCorner | 2048/Board.c:107-116 | Sliding left from slot 1 onto an equal unmerged value at slot 0 merges there and scores the double. |
| Scenarios.ShiftUpToCorner | 2048/Board.c:100-119 | Sliding left from slot 2 into an empty slot 1 stops against a different value at slot 0. |
| Scenarios.LeftTail | 2048/Board.c:175-183 | Once the remaining visits are all empty, the left move is done apart from its counter. |
| Scenarios.ThreeEqualFirst | 2048/Board.c:175-181 | On [x, x, x, 0], the first column of the left move merges slot 1 into slot 0. |
| Scenarios.LeftThreeEqual | 2048/Board.c:135-184 | moveBoard 'l' on a top row [x, x, x, 0] gives [2x, x, 0, 0]. This is [4, 2, 0, 0] for x = 2, with one merge at slot 0 scoring 2x. |
| Scenarios.CrossGap | 2048/Board.c:96-131 | The value at slot 3 crosses the empty slots 2 and 1 and merges into slot 0. |
| Scenarios.LeftAcrossGap | 2048/Board.c:135-184 | moveBoard 'l' on a top row [x, 0, 0, x] gives [2x, 0, 0, 0]. This is [4, 0, 0, 0] for x = 2, with one merge at slot 0 scoring 2x. |

## Left out

- Rendering is not modelled: printNumber, printBoard and printGeneralInfo (2048/Board.c:187-273) are console output with colours and padding.
- rand() and srand(time(NULL)) (2048/Board.c:25, 330-333) become parameters: one value draw and a sequence of slot draws per initCell. The probability distribution, including the 3:1 bias toward 2, is not modelled.
- The allocation in newGameBoard and endGame's free (2048/Board.c:12, 340-342) are not modelled. A class constructor stands in for the allocation.
- The stderr messages of edgeIndex and moveBoard (2048/Board.c:65, 137) are output only. The paths they are on are modelled.
- terminal-2048/main.c, terminal-2048/Save.h and the colour macros of terminal-2048/Board.h are not part of this model.
- Values, score, goal and counters are unbounded naturals. C `int`/`unsigned` overflow is not modelled.
- edgeIndex's loops, dirPossible's scan and noPossibleMove's scan only read the board. They are recursive functions, not methods with loops.
- Board.GameBoard.InitCell and Board.GameBoard.constructor require that some draw names an empty slot, for the second call another slot than the first. The source loops forever otherwise (SeedProofs.FullNeverSeeds).
- ShiftInto, MergeInto, RefreshCaches, ClearFlags, MoveLine and VisitCell are pieces of moveCell and moveBoard split out as methods. They keep the source's statements in order, with one exception: moveCell sets `merged` (2048/Board.c:113) between the cell and the flag and score updates, while `GameBoard.MoveCell` sets it after `MergeInto` has made all four updates. None of those updates reads `merged`.
- newGameBoard leaves largestCell unset until updateLargestCell; the model starts it at 0. Nothing reads it in between.
- Scenarios.LeftThreeEqual: stated for a board whose three lower rows are empty, not for any contents of the other rows.
- Scenarios.LeftAcrossGap: stated for a board whose three lower rows are empty, not for any contents of the other rows.
- Potential.MoveBoardChangesIffPossible: speaks of the values on the board only. A move always resets the flags and counts one more move.
