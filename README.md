# Match-3 rule engine: a verified model

This project models the rule engine of a Unity match-3 game on a 7×7 board. The model covers:

- **Pieces.** Regular gems have a colour. Bombs have a logical colour, which may be the generic `Bomb` colour, and a blast size.
- **Match rules.** When two pieces belong to the same match group, and when a bomb can interact with a piece.
- **Detection.** The board scan that builds the current match list:
  - horizontal and vertical runs of three;
  - adjacent bomb pairs;
  - a list with repeated gems removed;
  - one pass of bomb propagation over that list.
- **Resolution.** Turning the match list into destroyed gems, score, new bombs and a scheduled fall:
  - matches of regular gems only;
  - a single bomb's 3×3 blast;
  - the double-bomb sweep of the whole board;
  - bomb creation in a reserved slot.
- **Cascade.**
  - The fall of every column.
  - The refill from the palette.
  - Detection again, repeated until the board has no match.
  - The `Move`/`Wait` state machine that gates player input.
- **Player swaps.** The swipe direction, the swap itself, and keeping or reverting it.
- **The gem pool.** One FIFO queue of inactive instances per prefab.

How the model is built:

- **Gems are values.** `Piece(id, kind, scoreValue)`. The id is the pool instance, so a recycled instance keeps its id.
- **Per-instance fields the code mutates are maps and sets indexed by id**, held in `GameBoard.Board`:
  - `posIndex`;
  - `isMatch`;
  - the registration fields written by `SetupGem`.
- **The board is an `array2<Option<Piece>>`** in the class `GameBoard.Board`.
- **Match detection is two-layered.** The pure functions of module `Detection` state it. The board's methods compute it imperatively and are proved equal to those functions.
- **Resolution is also two-layered.** The class `GameLogic.Game` holds score, state, the bomb set and the pending coroutines. Its methods are proved against value-level functions in modules `Resolution` and `Gravity`:
  - `ClearSet` and `MatchCleared`: which cells are emptied;
  - `BoardScore`: what the score gains;
  - `Packed` and `Fall`: what the fall does;
  - `Resolved`: what the board looks like afterwards.
- **`Resolution.Tracked` is kept invariant by every operation.** It says that:
  - every gem on the board sits at its `posIndex`;
  - every gem on the board is an active pool instance;
  - every gem is in `_bombs` exactly when it is a bomb.
- **Coroutines** are a queue `pending` of the cascade steps that `StartCoroutine` has scheduled. `RunPending` runs them in order.
- **Waits** (`WaitForSeconds`) are dropped. Player input is refused in `Wait`, so nothing else of the rule engine runs during them.

Three behaviours of the code shape the model:

- **`isMatch` is never reset.** The code sets the flag when a gem is matched (GameBoard.cs:183 and 239) and nothing clears it, while the pool hands instances out again. See Findings.
- **A single bomb always clears 3×3.** `DestroyMatchesWithBombsCo` destroys the 3×3 ring returned by `GetBombNeighborPositions`, whatever the bomb's `blastSize`. `blastSize` is used only by detection (`MarkBombArea`).
- **The bomb-creation thresholds are constants.** A bomb is created for 4 regular gems (ScGameLogicManager.cs:128), or for 4 pieces of which 3 are regular when a single bomb is matched (ScGameLogicManager.cs:180).

## Model

| member | source | states |
|---|---|---|
| Pieces.NullNeverInteracts | Assets/Scripts/ScBomb.cs:27-30 | A bomb never interacts with null. |
| Pieces.GenericBombInteractsWithAll | Assets/Scripts/ScBomb.cs:32-34 | A bomb of the generic colour interacts with every piece. |
| Pieces.ColouredBombWithBomb | Assets/Scripts/ScBomb.cs:36-42 | A coloured bomb interacts with another bomb exactly when that bomb is generic or has the same colour. |
| Pieces.ColouredBombWithRegular | Assets/Scripts/ScBomb.cs:44-46 | A coloured bomb interacts with a regular gem exactly when the gem's type is the bomb's colour. |
| Pieces.GroupNeedsBothPieces | Assets/Scripts/GameBoard.cs:19-31 | A null on either side is never in a match group. |
| Pieces.RegularGroupIffSameType | Assets/Scripts/GameBoard.cs:19-31 | Two regular gems are in one group exactly when their types are equal. |
| Pieces.GroupSymmetric | Assets/Scripts/GameBoard.cs:19-31 | The match-group relation is symmetric, although the code asks the left-hand bomb first. |
| Pieces.GroupNotTransitive | Assets/Scripts/GameBoard.cs:19-31 | The relation is not transitive: a generic bomb groups with a red and with a blue gem, which do not group. |
| Pieces.DoubleBombIgnoresColour | Assets/Scripts/GameBoard.cs:135-141 | The double-bomb test passes for two bombs that cannot interact with each other. |
| Detection.MatchesAt | Assets/Scripts/GameBoard.cs:44-75 | A null candidate never matches, and no cell of the bottom-left 2×2 corner can complete a run. |
| Detection.MatchesAtReadsOnlyLeftAndBelow | Assets/Scripts/GameBoard.cs:44-75 | The test depends only on the two cells to the left and the two cells below. |
| Detection.MatchesAtSeesRunToTheLeft | Assets/Scripts/GameBoard.cs:48-58 | A regular candidate with two gems of its own type to its left is rejected. |
| Detection.Distinct | Assets/Scripts/GameBoard.cs:98-99 | The result has no repetitions, has the same members as the input and is not longer. |
| Detection.DistinctKeepsOrder | Assets/Scripts/GameBoard.cs:98-99 | The result lists the gems in the order of their first occurrence in the input. |
| Detection.DistinctOfNoDup | Assets/Scripts/GameBoard.cs:98-99 | A list without repetitions is left unchanged. |
| Detection.MarkBombAreaIds | Assets/Scripts/GameBoard.cs:226-246 | Marking a bomb area adds exactly the ids of the blast square to the flagged ids. |
| DetectionProperties.ColumnMarksMembers | Assets/Scripts/GameBoard.cs:87-95 | A gem is marked in column x exactly when some cell of that column marked it. |
| DetectionProperties.ScanMarksMembers | Assets/Scripts/GameBoard.cs:85-96 | A gem is marked by the scan of columns 0..m-1 exactly when some column marked it. |
| DetectionProperties.RawMatchesMembers | Assets/Scripts/GameBoard.cs:85-96 | A gem is in the list before repetitions are removed exactly when some cell's two checks marked it. |
| DetectionProperties.CellMarksOnBoard | Assets/Scripts/GameBoard.cs:104-172 | Every gem the horizontal and vertical checks mark sits on the board. |
| DetectionProperties.AreaColumnMembers | Assets/Scripts/GameBoard.cs:230-242 | A column of a blast area holds exactly the gems of its rows that are on the board. |
| DetectionProperties.AreaColumnsMembers | Assets/Scripts/GameBoard.cs:228-243 | A run of blast-area columns holds exactly the gems of the rectangle that are on the board. |
| DetectionProperties.BombAreaMembers | Assets/Scripts/GameBoard.cs:226-246 | The blast area holds exactly the gems within Chebyshev distance blastSize of the bomb, clipped to the board. |
| DetectionProperties.TriggerNeighborsMembers | Assets/Scripts/GameBoard.cs:207-222 | After k neighbours, the list holds the old list plus the blast of each of those neighbours that is a bomb able to interact with the gem. |
| DetectionProperties.TriggerNeighborsNoDup | Assets/Scripts/GameBoard.cs:207-222 | Triggering neighbours never creates repetitions. |
| DetectionProperties.PropagateMembers | Assets/Scripts/GameBoard.cs:202-223 | After i gems of the snapshot, the list holds the snapshot plus the blasts those gems triggered, and nothing more. |
| DetectionProperties.PropagateNoDup | Assets/Scripts/GameBoard.cs:202-223 | Propagation never creates repetitions. |
| DetectionProperties.FindAllMatchesMembers | Assets/Scripts/GameBoard.cs:81-102 | The match list holds every gem a cell check marked, plus every gem in the blast of a bomb next to one of them, and nothing else; gems added by a blast do not trigger further bombs. |
| DetectionProperties.FindAllMatchesNoDup | Assets/Scripts/GameBoard.cs:81-102 | The match list has no repetitions. |
| DetectionProperties.FindAllMatchesResolvable | Assets/Scripts/GameBoard.cs:81-102 | A fresh match list has no repetitions and every gem in it is on the board, which is what DestroyMatches relies on. |
| DetectionProperties.FindAllMatchesOnBoard | Assets/Scripts/GameBoard.cs:81-102 | Every listed gem sits on the board. |
| DetectionProperties.HorizontalRunMatched | Assets/Scripts/GameBoard.cs:127-132 | Three regular gems of one type side by side are all in the match list. |
| DetectionProperties.VerticalRunMatched | Assets/Scripts/GameBoard.cs:166-171 | Three regular gems of one type stacked in a column are all in the match list. |
| DetectionProperties.HorizontalBombPair | Assets/Scripts/GameBoard.cs:115-120 | A bomb whose right-hand neighbour is a bomb is marked with that neighbour only, whatever the colours; the three-in-a-row test is skipped. |
| DetectionProperties.HorizontalLeftBombPair | Assets/Scripts/GameBoard.cs:121-125 | The left-hand bomb is paired only when the right-hand neighbour is not a bomb. |
| DetectionProperties.VerticalBombPair | Assets/Scripts/GameBoard.cs:154-159 | Vertically, a bomb at y-1 (the code's aboveGem) is paired with the centre bomb first. |
| DetectionProperties.MarksOnlyInterior | Assets/Scripts/GameBoard.cs:106-113 | A border cell, or a cell with an empty neighbour on an axis, marks nothing on that axis. |
| DetectionProperties.CheckForBombsKeeps | Assets/Scripts/GameBoard.cs:188-224 | Propagation only adds: every id listed before the pass is listed after it. |
| GameBoard.Board.constructor | Assets/Scripts/GameBoard.cs:37-42 | A new board is empty, with no matches, no flags and no positions. |
| GameBoard.Board.SetGem | Assets/Scripts/GameBoard.cs:77 | Exactly one cell changes, to the given gem. |
| GameBoard.Board.SetupGem | Assets/Scripts/ScGem.cs:96-103 | The instance gets the position as posIndex and registered position, and is marked not registered. |
| GameBoard.Board.MatchesAt | Assets/Scripts/GameBoard.cs:44-75 | The array code returns exactly Detection.MatchesAt of the board. |
| GameBoard.Board.MarkAsMatch | Assets/Scripts/GameBoard.cs:174-186 | The gems are appended in order and their ids are flagged. |
| GameBoard.Board.TryAddHorizontalMatch | Assets/Scripts/GameBoard.cs:104-133 | The list grows by exactly the horizontal marks of the cell, and those ids are flagged. |
| GameBoard.Board.TryAddVerticalMatch | Assets/Scripts/GameBoard.cs:143-172 | The list grows by exactly the vertical marks of the cell, and those ids are flagged. |
| GameBoard.Board.MarkAreaColumn | Assets/Scripts/GameBoard.cs:230-242 | One column of the blast square: its gems on the board are appended and flagged. |
| GameBoard.Board.MarkBombArea | Assets/Scripts/GameBoard.cs:226-246 | The list becomes Detection.MarkBombArea of the old list (area appended, repetitions removed), and the area's ids are flagged. |
| GameBoard.Board.TriggerNeighbor | Assets/Scripts/GameBoard.cs:209-221 | One neighbour: the list advances by one step of TriggerNeighbors, and every listed id stays flagged. |
| GameBoard.Board.TriggerAdjacentBombs | Assets/Scripts/GameBoard.cs:204-222 | The list becomes TriggerNeighbors over all four neighbours; ids are only added. |
| GameBoard.Board.CheckForBombs | Assets/Scripts/GameBoard.cs:188-224 | The list becomes Detection.CheckForBombs of the old list, a pass over a snapshot of it, and every listed id is flagged. |
| GameBoard.Board.ScanCell | Assets/Scripts/GameBoard.cs:89-94 | An empty cell adds nothing; a gem gets the horizontal then the vertical check. |
| GameBoard.Board.ScanColumn | Assets/Scripts/GameBoard.cs:87-95 | The rows of a column are scanned bottom up. |
| GameBoard.Board.FindAllMatches | Assets/Scripts/GameBoard.cs:81-102 | The list is replaced by Detection.FindAllMatches of the board, and the flags grow by the listed ids. |
| GameBoard.Board.FindAllMatchesTwice | Assets/Scripts/GameBoard.cs:81-102 | Detection reads only the board and posIndex, so running it twice gives the same list. |
| GemPool.Range | Assets/Scripts/ScGemPoolService.cs:24-32 | The instance numbers Prewarm creates: n consecutive numbers from lo. |
| GemPool.RegisteredMembers | Assets/Scripts/ScGemPoolService.cs:28 | Prewarm's registrations map the new instances to the prefab and keep every earlier entry. |
| GemPool.TouchQueue | Assets/Scripts/ScGemPoolService.cs:18-22 | Creating a missing queue keeps the pool invariants. |
| GemPool.EnqueueFresh | Assets/Scripts/ScGemPoolService.cs:26-31 | A new inactive instance at the back of its prefab's queue keeps the pool invariants. |
| GemPool.TakeFront | Assets/Scripts/ScGemPoolService.cs:44-47 | The front of a non-empty queue is inactive and, once dequeued, is in no queue. |
| GemPool.InstantiateActive | Assets/Scripts/ScGemPoolService.cs:48-52 | A newly instantiated instance is registered to its prefab and is in no queue. |
| GemPool.ReturnActive | Assets/Scripts/ScGemPoolService.cs:81-88 | A released active instance goes to the back of its prefab's queue, inactive, and the invariants hold. |
| GemPool.Pool.constructor | Assets/Scripts/ScGemPoolService.cs:10-13 | A new pool has no queues, no instances and nothing active. |
| GemPool.Pool.Prewarm | Assets/Scripts/ScGemPoolService.cs:15-32 | max(count, 0) new inactive instances are appended to the prefab's queue in creation order and registered to the prefab; nothing else changes. |
| GemPool.Pool.Get | Assets/Scripts/ScGemPoolService.cs:35-60 | A non-empty queue gives up its front instance; an empty queue leads to a new instance. Either way the instance is registered to the prefab, becomes active, and was not active before. |
| GemPool.Pool.Spawn | Assets/Scripts/ScGemPoolService.cs:62-67 | As Get: the front of the prefab's queue when it is non-empty, otherwise a fresh instance registered to the prefab. The instance becomes active. Registrations are only added. |
| GemPool.Pool.Release | Assets/Scripts/ScGemPoolService.cs:69-89 | Null is ignored. An unknown instance is destroyed. A known instance is deactivated and appended to its prefab's queue. |
| Resolution.Put | Assets/Scripts/GameBoard.cs:77 | Exactly one cell of the board value changes. |
| Resolution.PutScore | Assets/Scripts/ScGameLogicManager.cs:382-386 | Replacing a cell changes the board's total score value by the difference of the two cells. |
| Resolution.ClearOneMore | Assets/Scripts/ScGameLogicManager.cs:399-410 | Clearing one more cell is the same as emptying that cell of the already cleared board. |
| Resolution.ClearEverything | Assets/Scripts/ScGameLogicManager.cs:214-225 | After the double-bomb sweep every cell is empty and the board is worth nothing. |
| Resolution.TrackedPos | Assets/Scripts/ScGem.cs:9 | A tracked gem's posIndex is its cell, and its instance is active. |
| Resolution.TrackedUnique | Assets/Scripts/GameBoard.cs:77 | An instance occupies at most one cell. |
| Resolution.TrackedOnBoard | Assets/Scripts/ScGameLogicManager.cs:137-148 | A listed gem on the board sits at its posIndex, is active, and is in `_bombs` exactly when it is a bomb. |
| Resolution.TrackedClear | Assets/Scripts/ScGameLogicManager.cs:388-410 | Returning a cell's gem to the pool and emptying the cell keeps the bookkeeping. |
| Resolution.TrackedPlace | Assets/Scripts/ScGameLogicManager.cs:68-82 | Placing an instance that was not active in an empty cell, and setting it up there, keeps the bookkeeping. |
| Resolution.TrackedMove | Assets/Scripts/ScGameLogicManager.cs:352-357 | A gem dropping into an empty cell of its column, its posIndex following it, keeps the bookkeeping. |
| Resolution.TrackedSwap | Assets/Scripts/ScGem.cs:133-189 | Two gems exchanging cells and posIndex values keeps the bookkeeping. |
| Resolution.TrackedRecolor | Assets/Scripts/ScBomb.cs:15-19 | Recolouring a bomb keeps the bookkeeping. |
| Resolution.SplitPartitions | Assets/Scripts/ScGameLogicManager.cs:96-108 | Every listed gem goes to exactly one list: the bombs to bombMatches, the rest to regularMatches. The two lists together are a permutation of the match list. |
| Resolution.SplitLengths | Assets/Scripts/ScGameLogicManager.cs:96-108 | The two lists together are as long as the match list. |
| Resolution.SplitNoDup | Assets/Scripts/ScGameLogicManager.cs:96-108 | Splitting a list without repetitions gives two lists without repetitions. |
| Resolution.RegularOnlySlotSpec | Assets/Scripts/ScGameLogicManager.cs:125-135 | With no bomb matched, a slot is reserved exactly when four or more regular gems matched, at the first one's posIndex. |
| Resolution.WithBombsSlotSpec | Assets/Scripts/ScGameLogicManager.cs:170-187 | With bombs matched, a slot is reserved exactly when there is one bomb and three or more regular gems; the four-piece test is then implied. |
| Resolution.NewBombJoinsSourceColour | Assets/Scripts/ScGameLogicManager.cs:321-334 | A bomb made from a regular source interacts with the source, and with a regular gem exactly when that gem has the source's type. |
| Resolution.RegularClearedSnoc | Assets/Scripts/ScGameLogicManager.cs:137-148 | One more regular gem adds its cell to the cleared set, unless the cell is the reserved slot. |
| Resolution.RegularClearedMembers | Assets/Scripts/ScGameLogicManager.cs:137-148 | A cell is cleared by the regular loop exactly when it is some listed gem's posIndex and not the slot. |
| Resolution.NeighborCellsMembers | Assets/Scripts/ScGameLogicManager.cs:276-294 | The neighbour set is exactly the on-board cells at most one step away in each axis, excluding the centre. |
| Resolution.ClearTwice | Assets/Scripts/ScGameLogicManager.cs:189-261 | Clearing a then b is clearing a + b. |
| Resolution.ClearAllAfter | Assets/Scripts/ScGameLogicManager.cs:189-226 | Once the whole board is swept, what the regular loop cleared before makes no difference. |
| Resolution.RegularStillThere | Assets/Scripts/ScGameLogicManager.cs:192-202 | When the regular loop reaches a gem, the gem still sits at its posIndex: earlier steps never emptied its cell. |
| Resolution.BombNotRegularCleared | Assets/Scripts/ScGameLogicManager.cs:189-261 | A matched bomb's cell is not among the cells the regular loop empties. |
| Resolution.SlotSurvives | Assets/Scripts/ScGameLogicManager.cs:178-270 | A reserved slot is the first regular gem's posIndex, is never among the emptied cells, and is reserved only when at most one bomb matched. |
| Resolution.RegularCellsCleared | Assets/Scripts/ScGameLogicManager.cs:137-148 | Every regular gem's cell is emptied unless it is the reserved slot. |
| Resolution.BlastCellsCleared | Assets/Scripts/ScGameLogicManager.cs:227-261 | A single bomb's own cell and its neighbours, except the reserved slot, are emptied. |
| Gravity.PackedSettled | Assets/Scripts/ScGameLogicManager.cs:338-365 | After the fall no gem sits above an empty cell. |
| Gravity.PackedKeepsGems | Assets/Scripts/ScGameLogicManager.cs:338-365 | The fall keeps the gems and their bottom-to-top order and the number of gaps; a second fall changes nothing. |
| Gravity.PackedScore | Assets/Scripts/ScGameLogicManager.cs:338-365 | The fall neither creates nor destroys score value in a column. |
| Gravity.SettledIsPacked | Assets/Scripts/ScGameLogicManager.cs:338-365 | A column with no gem above a gap does not change. |
| Gravity.ShiftCell | Assets/Scripts/ScGameLogicManager.cs:345-351 | Each cell still holds its original content when visited, the gaps seen so far sit just below it, and an empty cell adds one to nullCounter. |
| Gravity.ShiftStays | Assets/Scripts/ScGameLogicManager.cs:348-352 | An empty cell, or a gem with no gap below it, leaves the column as it is. |
| Gravity.ShiftMoves | Assets/Scripts/ScGameLogicManager.cs:352-357 | A gem with n > 0 gaps below it moves down n cells and leaves a gap behind. |
| Gravity.ShiftedEnd | Assets/Scripts/ScGameLogicManager.cs:342-362 | Once every row has been visited the column is the packed column. |
| Gravity.FallScore | Assets/Scripts/ScGameLogicManager.cs:338-365 | The whole fall keeps the board's score value: gems only move. |
| GameLogic.RecycledBombKeepsColour | Assets/Scripts/ScGameLogicManager.cs:68-82 | A bomb instance spawned again after SetBombColor gave it a colour comes out in that colour. A regular instance, or a bomb instance never coloured, is exactly its prefab's gem. |
| GameLogic.Game.constructor | Assets/Scripts/ScGameLogicManager.cs:27-28 | Init up to its `Setup()` call, which is `GameLogic.Game.Setup`, called separately: an empty board, a pool with no queues, no registrations and no active instance, an empty `_bombs`, score 0, state Move, nothing scheduled. |
| GameLogic.Game.IsBombMeansBombKind | Assets/Scripts/ScGameLogicManager.cs:397 | While the game is consistent, IsBomb holds for a gem on the board exactly when the gem is a bomb, and never for null. |
| GameLogic.Game.ScoreCheck | Assets/Scripts/ScGameLogicManager.cs:382-386 | The score grows by the gem's value. |
| GameLogic.Game.ReturnGemToPool | Assets/Scripts/ScGameLogicManager.cs:388-395 | Null is ignored. Otherwise the gem leaves `_bombs` and its instance is deactivated, and the pool stays sound. |
| GameLogic.Game.DestroyMatchedGemsAt | Assets/Scripts/ScGameLogicManager.cs:399-410 | The cell empties. A gem there leaves `_bombs` and the active set. The bookkeeping holds. |
| GameLogic.Game.SpawnGem | Assets/Scripts/ScGameLogicManager.cs:68-82 | An instance that was not active is placed in the empty cell with its posIndex set. It is an instance of the prefab. It joins `_bombs` exactly for the bomb prefab, and it joins the pool's active instances. |
| GameLogic.Game.SetBombColor | Assets/Scripts/ScBomb.cs:15-19 | Only the bomb's colour changes, on the board and in the instance's remembered colour. |
| GameLogic.Game.CreateBombAt | Assets/Scripts/ScGameLogicManager.cs:296-336 | The slot ends up holding a new bomb of the bomb prefab, coloured after the source (a bomb source's colour, otherwise its type). Every other cell is unchanged. The old gem's id leaves `_bombs` and the active instances, and the new bomb's id joins both. |
| GameLogic.Game.GetRandomGemForPosition | Assets/Scripts/ScGameLogicManager.cs:50-66 | Null exactly for an empty palette. Otherwise a palette entry that completes no run at the position, unless 100 redraws were used up. |
| GameLogic.Game.GetBombNeighborPositions | Assets/Scripts/ScGameLogicManager.cs:276-294 | Exactly the on-board cells around the centre, each once. |
| GameLogic.Game.ClearCell | Assets/Scripts/ScGameLogicManager.cs:218-223 | One cell of a destroy loop is added to the cleared set. A gem there is scored, so score plus board value is conserved. |
| GameLogic.Game.DestroyRegular | Assets/Scripts/ScGameLogicManager.cs:137-148 | The board becomes ClearSet of the regular gems' cells except the slot, and the score gains exactly the value removed. |
| GameLogic.Game.DestroyRegularAt | Assets/Scripts/ScGameLogicManager.cs:192-202 | One round of the regular loop advances the cleared set by that gem's cell, unless the cell is the slot, and conserves score plus board value. |
| GameLogic.Game.DestroyNeighbors | Assets/Scripts/ScGameLogicManager.cs:240-252 | The bomb's neighbour cells, except the slot, are cleared and scored. |
| GameLogic.Game.SweepBoard | Assets/Scripts/ScGameLogicManager.cs:214-225 | Every cell is cleared, and the score gains the whole board's value. |
| GameLogic.Game.ExplodeBomb | Assets/Scripts/ScGameLogicManager.cs:231-259 | The bomb's neighbours except the slot are cleared, then the bomb's own cell, and all of them are scored. |
| GameLogic.Game.ExplodeAfterRegular | Assets/Scripts/ScGameLogicManager.cs:227-261 | After the regular loop, the blast extends the cleared set by the bomb's neighbours and cell. |
| GameLogic.Game.ClearWithBombs | Assets/Scripts/ScGameLogicManager.cs:189-261 | The board becomes ClearSet of MatchCleared, which is the whole board for two or more bombs, and the score gains exactly the value removed. |
| GameLogic.Game.CreateReservedBomb | Assets/Scripts/ScGameLogicManager.cs:263-270 | A bomb is created only in a reserved slot, and the board is then Resolved. |
| GameLogic.Game.HandleRegularMatchesOnly | Assets/Scripts/ScGameLogicManager.cs:120-156 | An empty list changes nothing. Otherwise the board is Resolved (cells cleared, a bomb made for four or more), the score gains the cleared value, and the fall is scheduled. |
| GameLogic.Game.DestroyMatchesWithBombs | Assets/Scripts/ScGameLogicManager.cs:168-274 | The board is Resolved (no new bomb for a double-bomb match), the score gains the cleared value, and the fall is scheduled. |
| GameLogic.Game.SplitMatches | Assets/Scripts/ScGameLogicManager.cs:96-108 | The two lists are the bomb and non-bomb sublists of the match list, in list order. |
| GameLogic.Game.DestroyMatches | Assets/Scripts/ScGameLogicManager.cs:90-118 | An empty match list changes nothing. Otherwise the list is split and resolved, the score gains the cleared value, and the fall is scheduled. The match list and flags are untouched. |
| GameLogic.Game.DropGem | Assets/Scripts/ScGameLogicManager.cs:354-356 | The gem moves down n cells into an empty cell, and its posIndex follows it. |
| GameLogic.Game.ShiftColumn | Assets/Scripts/ScGameLogicManager.cs:344-361 | Column x becomes its packed form, and every other column is unchanged. |
| GameLogic.Game.DecreaseRowCo | Assets/Scripts/ScGameLogicManager.cs:338-365 | The board becomes Fall of the board, and the refill is scheduled. |
| GameLogic.Game.RefillCell | Assets/Scripts/ScGameLogicManager.cs:436-445 | An occupied cell, or any cell under an empty palette, is left alone. Otherwise only this cell changes, to a palette instance. |
| GameLogic.Game.RefillColumn | Assets/Scripts/ScGameLogicManager.cs:434-449 | Only the empty cells of the column change, each to a palette instance. With a non-empty palette the column ends full. |
| GameLogic.Game.RefillBoardCo | Assets/Scripts/ScGameLogicManager.cs:430-453 | Gems already on the board stay. Empty cells get palette instances. A non-empty palette fills the board, and an empty one changes nothing. |
| GameLogic.Game.SetupColumn | Assets/Scripts/ScGameLogicManager.cs:36-46 | Every cell of the column gets a palette instance, and the other columns stay. |
| GameLogic.Game.Setup | Assets/Scripts/ScGameLogicManager.cs:32-48 | Every cell of the empty board gets a palette instance. |
| GameLogic.Game.FilledBoardCo | Assets/Scripts/ScGameLogicManager.cs:412-428 | The refill keeps every gem and fills empty cells with palette instances, filling the board when the palette is non-empty. The new match list is detection on the refilled board. An empty list leaves that board, Move and the score. A non-empty list is resolved (ListResolved: resolved board and score gain), and the fall is scheduled again. |
| GameLogic.Game.RunPending | Assets/Scripts/ScGameLogicManager.cs:155 | Scheduled coroutines run in order, keeping at most one scheduled, with Wait exactly while one is. A finished cascade leaves Move and a board without matches. |
| Swap.SwipeDirectionSpec | Assets/Scripts/ScGem.cs:133-183 | A swipe picks the nearest axis exactly when it is not on a ±45° diagonal and the neighbour there is on the board. |
| Swap.SwipeTargetAdjacent | Assets/Scripts/ScGem.cs:133-183 | The picked neighbour is an orthogonally adjacent cell on the board. |
| Swap.SwapRoundTrip | Assets/Scripts/ScGem.cs:206-210 | Swapping back what was swapped restores the board. |
| Swap.MovePieces | Assets/Scripts/ScGem.cs:128-192 | With a direction and a gem there, the two gems exchange cells and posIndex values. Otherwise nothing changes. |
| Swap.FreshFlagsAgree | Assets/Scripts/ScGem.cs:204 | While neither gem carries an old flag, the flag test agrees with the test on the match list. |
| Swap.StaleFlagKeepsSwap | Assets/Scripts/ScGem.cs:204 | Counterexample: a recycled gem with a stale flag makes the test keep a swap that forms no match. |
| Swap.CheckMoveCoAsWritten | Assets/Scripts/ScGem.cs:194-219 | As written: the match list is detection on the swapped board. When the flag test keeps a swap with an empty list, the board and score are unchanged and the manager stays in Wait with nothing scheduled, so input stays blocked. A kept swap with matches resolves them (ListResolved) and schedules the fall. A rejected swap is reverted and the state is Move. |
| Swap.CheckMoveCo | Assets/Scripts/ScGem.cs:194-219 | Corrected: the match list is detection on the swapped board. The swap is kept exactly when a swapped gem is in it; then the list is resolved on the swapped board (ListResolved) and the fall is scheduled. Otherwise the swap is reverted, the score is kept and the state is Move. Wait holds exactly while a cascade is scheduled. |
| Swap.RevertSwap | Assets/Scripts/ScGem.cs:206-210 | Each gem gets the other's posIndex back and is stored there. |
| Swap.DestroyCurrentMatches | Assets/Scripts/ScGem.cs:217 | A non-empty fresh match list is resolved (ListResolved: resolved board and score gain) and schedules the fall. An empty one changes neither board nor score and schedules nothing. |
| Swap.HandleInput | Assets/Scripts/ScGem.cs:76-94 | Input in Wait, or a release within MinSwipeDistance, changes nothing. An accepted swipe runs the corrected check `Swap.CheckMoveCo`, not the test as written. Under that check, any input keeps Wait exactly while a cascade is scheduled. |

## Left out

- Rendering is not modelled: sprites, `UpdatePosition`'s movement towards `posIndex`, and its board write-back (ScGem.cs:44-74). The model keeps every gem at its `posIndex` once it is placed.
- Destroy effects, `SetImageColor`, object names, parents and spawn world positions are not modelled.
- `WaitForSeconds` delays, `UpdateScoreTask`, `_displayScore` and `ScoreView` are not modelled.
- GameLogic.Game.ScoreCheck: `_score` is a single-precision `float` (ScGameLogicManager.cs:17), and `ScoreCheck` adds the integer `scoreValue` to it (ScGameLogicManager.cs:384). The model keeps the total as an exact `int`. The two agree only while every running total stays within ±2^24 (16,777,216), where every integer is a float. Beyond that the float rounds and the model does not.
- Coroutines are not run concurrently. `DestroyMatchesWithBombsCo` runs to completion when `DestroyMatches` calls it. `DecreaseRowCo` and `FilledBoardCo` are queued and run by `RunPending`.
- GameLogic.Game.RunPending: has a fuel bound, because a cascade is not known to end (each refill is random). The contract says nothing once the fuel runs out.
- `Random.Range` is modelled as an arbitrary choice, so every property holds whatever the random draws are.
- The swipe angle (`Atan2`) and distance (`magnitude`) of the mouse positions are inputs of `Swap.HandleInput`. `OnMouseDown` and the mouse-button bookkeeping are not modelled.
- `CheckMisplacedGems` is not modelled: it queries the Unity scene for stray objects (ScGameLogicManager.cs:455-471).
- Object lifetime is not modelled beyond the pool. `Object.Instantiate` takes the next unused instance number. `Object.Destroy` records the instance as destroyed.
- The board is fixed at 7×7 (ScGameLogicManager.cs:27). `RowsSize` and `ColsSize` of ScGameVariables are taken to be 7 as well.
- GameLogic.Game.Setup: requires a non-empty palette. With an empty palette the code passes null to `Spawn`, which fails inside Unity.
- GameLogic.Game.DestroyMatches: requires the match list to have no repetitions and to hold only gems on the board. `Detection.FindAllMatches` always produces such a list (`DetectionProperties.FindAllMatchesResolvable`). The code skips nulls, and the list never holds one.
- GameLogic.Game.DestroyMatchesWithBombs: requires at least one bomb, which is the only way `DestroyMatches` calls it.
- GameLogic.Game.CreateBombAt: states that the new bomb's instance was inactive, or that it is the instance just returned from the slot. It does not state which one the pool hands out.
- GameLogic.Game.GetRandomGemForPosition: promises that the drawn entry completes no run only when fewer than 100 redraws were used. After 100 the code returns whatever was drawn last.
- Swap.HandleInput: states the exact outcome only for refused input. For an accepted swipe its guarantee is the Move/Wait discipline; the outcome itself is stated by `Swap.MovePieces` and `Swap.CheckMoveCo`.
- Swap.HandleInput: an accepted swipe runs the corrected check `Swap.CheckMoveCo`, not the flag test as written (ScGem.cs:204). The Move/Wait guarantee (Wait exactly while a cascade is scheduled) therefore holds only for the corrected program. With the code as written, a swipe whose gem carries a stale `isMatch` flag and forms no match ends in Wait with nothing scheduled (`Swap.CheckMoveCoAsWritten`, `Swap.StaleFlagKeepsSwap`; see Findings).
- GameLogic.Game.constructor: requires ConfigOk. The code takes `bomb` and `gems` as plain `ScGem` fields (ScGameVariables.cs:7-8) and accepts two configurations the model excludes:
  - a bomb prefab that is not an `ScBomb`;
  - a palette entry that is an `ScBomb` but is not the bomb prefab.
  In either, detection, which recognises bombs by type (`is ScBomb`, GameBoard.cs:24-28, 140, 216), disagrees with `DestroyMatches`, which recognises them by `_bombs` membership (ScGameLogicManager.cs:80-81, 397). ConfigOk is what makes `_bombs` hold exactly the `BombGem` instances on the board (`Resolution.Tracked`). The model does not describe the game under such a configuration.

## Findings

| source | as written | input that shows it | evidently intended | confidence | as-written member | corrected member |
|---|---|---|---|---|---|---|
| Assets/Scripts/ScGem.cs:204 | The swap is kept when either gem's `isMatch` flag is set. The flag is set when a gem is matched (GameBoard.cs:183, 239) and never cleared, and the pool hands out old instances again. | Instance 5 (red) matched in an earlier cascade and was recycled. It is swapped with instance 6 (blue), forming no match, so the new match list is empty. The flag test keeps the swap, `DestroyMatches` returns at once on the empty list, and the state stays `Wait` with nothing scheduled, so input is refused from then on. | Keep the swap exactly when one of the two gems is in the match list just found; otherwise swap back and return to `Move`. | not executed | Swap.CheckMoveCoAsWritten, Swap.StaleFlagKeepsSwap | Swap.CheckMoveCo |
