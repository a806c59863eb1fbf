# chromatris core in Dafny

A model of the falling-block simulation of chromatris (`game.js`): the seven
tetromino kinds and their 16-bit rotation masks, the `eachBlock` scan that
turns a mask into the cells of a 4x4 window, the `occupied` and `canPlace`
queries on the 10x20 board, `move`, `rotate` and `drop` of the active piece,
the lock, `clearLines` with its scoring and fall-speed rule, the `nextPiece`
bag, `resetGame`, `handleActions`, the PLAY branch of the main loop, and
the state and high-score parts of `startGame`, `resumeGame`, `togglePause`,
`gameOver` and `showMenu`.

The project has two layers.

- The value layer holds the specification functions and the lemmas about
  them: `Pieces`, `Board`, `Scoring`, `Bag` and `Session`. `Session.World`
  holds every variable the operations touch, and each operation is a
  function on it.
- The imperative layer is `Tetris.Game`. It is a class with the
  source's module-level variables as fields. The board is a column-major
  `array2<Cell>`, `blocks[x, y]`, as in the source, and a ghost field holds
  the same cells as rows.
  - Every method updates the fields in place and runs the source's own
    loops: the bit scan of the lock and the bottom-to-top scan of
    `clearLines` with its backtracking `y++`.
  - Every method is proved to leave `Snap()` equal to its `Session`
    function applied to the old fields: `Snap()` is the fields read as a
    `World`.
  - The invariant `Valid()` holds between any two operations. It says the
    array matches the rows and that `Session.WorldOk` holds: a whole board,
    the active piece on it, `next` in its spawn position, the fall interval
    matching the row count, and a pool without repeated kinds.

The central invariant is `Session.Live`: while a game is running or paused,
the active piece is placeable. Every spawn fits the empty board, so a new
game starts live. Every drop, action and frame keeps a live world live: the
piece moves to a placeable position, or the promoted piece fits, or the game
is over. What keeps the unchecked writes of the lock on the board is the
weaker `InBounds(current)` of `Session.WorldOk`: every cell of the active
piece lies on the board, in every state. A piece that moves or turns only
into placeable positions, and every spawn, keep it.

Notes on the encoding:

- Times are whole milliseconds. `SPEED_START`, `SPEED_DEC` and
  `SPEED_MIN` are 600, 10 and 100, and `max(SPEED_MIN, SPEED_START -
  SPEED_DEC * rows)` is exact in them.
- Each value of `Math.random()` is a caller-supplied real `u` in [0, 1).
  The pool index is `floor(u * n)`, as in the source, and
  `Bag.IndexReachable` shows every index is chosen by some `u`.
- The offset lists of the 28 masks are written out as a table.
  `Pieces.OffsetsDecode` proves each list equals the most-significant-bit-first
  scan of its mask, so the table and the masks of `TETROMINOS` cannot
  disagree.

The model follows `game.js` as written, including where it departs from
common conventions of the genre:

- `occupied` treats rows above the board (y < 0) as occupied.
- `rotate` tries only the next rotation at the same position. There is no
  kick table.
- A clear of c rows scores `100 * 2^(c-1)`, not a table of base points.
- Each frame handles at most one queued action. It does not drain the queue.
- Nothing checks for a lock above the board.
- The PLAY test of the loop is made once per frame. An action `'down'`
  that ends the game can be followed by the frame's natural fall, and
  `drop` does not test the state either. If the row below is taken, that
  fall locks the active piece in OVER even when it cannot be placed,
  writing its kind over occupied cells. The lock can then clear rows and
  raise the score after the game has ended
  (`Session.FallAfterOverLocks`). The writes still land on the board,
  because `InBounds(current)` holds in every state.

## Model

| member | source | states |
|---|---|---|
| Pieces.Size | game.js:54-62 | the bounding-box size of each kind in `TETROMINOS`: 4 for `i`, 2 for `o`, 3 for the rest |
| Pieces.Mask | game.js:54-62 | the 28 rotation masks of `TETROMINOS`, by kind and direction |
| Pieces.Decode | game.js:121-127 | the window offsets `eachBlock` visits in its first n steps: bit `0x8000 >> i` tested at step i, column i % 4 of row i / 4 |
| Pieces.Cells | game.js:121-127 | the board cells `eachBlock` passes to its callback: each offset shifted by the window origin, in visiting order |
| Pieces.Spawn | game.js:95 | a drawn kind spawns in rotation 0 on row 0, horizontally centred: `2x <= NX - size < 2x + 2` |
| Pieces.OffsetsDecode | game.js:121-127 | the offset list of every kind and rotation is exactly the list of window cells `eachBlock` visits for its mask, in visiting order |
| Pieces.DecodeMembers | game.js:121-127 | the scan's first n steps visit an offset exactly when it lies in the 4x4 window, its index 4y+x is below n and its mask bit is set |
| Pieces.DecodeOrdered | game.js:121-127 | the scan visits offsets in strictly increasing index order, so it never visits one twice |
| Pieces.DecodeLength | game.js:121-127 | a full scan visits one offset per set bit of the mask |
| Pieces.TableFourBits | game.js:54-62 | every one of the 28 masks of `TETROMINOS` has exactly four set bits |
| Pieces.MasksHaveFourCells | game.js:121-127 | the scan of every mask visits exactly four offsets |
| Pieces.FourDistinctCells | game.js:121-127 | every rotation of every kind covers four distinct cells, all inside the 4x4 window |
| Pieces.SquareRotationInvariant | game.js:58 | the square's four masks are equal, so every rotation's scan visits the same offsets as rotation 0 and its table entry is the same |
| Pieces.BitNext | game.js:123 | shifting the scan bit right moves to the next step's bit and reaches zero after the sixteenth |
| Pieces.StepNext | game.js:125 | the column counter wraps from 3 to 0 and then the row counter advances |
| Pieces.ScanStep | game.js:124 | one more scan step adds the step's offset exactly when its bit is set |
| Pieces.CellsMembers | game.js:121-127 | a board cell belongs to a piece exactly when its offset from the piece's window is one of the piece's offsets |
| Board.Occupied | game.js:129-131 | `occupied(x, y)`: every position off the board, above it included, is occupied; on the board a cell is occupied when it is not empty |
| Board.CanPlace | game.js:133-137 | `canPlace(p)`: none of the cells `eachBlock` visits for p is occupied |
| Board.Lock | game.js:151 | the lock's callback writes the piece's kind into each visited cell in turn; a whole board stays whole |
| Board.Cleared | game.js:158-167 | the board after `clearLines`: one empty row on top per complete row, then the incomplete rows in their order |
| Board.FreeAt | game.js:133-137 | `canPlace`'s flag survives the scan exactly when no visited cell is occupied |
| Board.CanPlaceIff | game.js:129-137 | a piece can be placed exactly when each of its four distinct cells is on the board and empty |
| Board.CanPlaceInBounds | game.js:129-131 | a placeable piece lies on the board, since everything off the board counts as occupied |
| Board.SpawnInBounds | game.js:95 | every spawned piece lies on the board |
| Board.SpawnFitsEmptyBoard | game.js:79 | every spawned piece is placeable on the empty board of a new game |
| Board.LockAt | game.js:151 | the lock writes the piece's kind into exactly the piece's cells and leaves every other cell alone |
| Board.LockAtScan | game.js:151 | the same in terms of the scan: a cell receives the kind exactly when its window bit is set |
| Board.ScanInBounds | game.js:151 | every cell the lock's scan writes for a piece on the board lies on the board |
| Board.LockAddsFour | game.js:151 | locking a placeable piece adds exactly four occupied cells |
| Board.KeptShape | game.js:158-167 | as many rows are kept as were not complete; every kept row is an incomplete row of the board and every incomplete row is kept, so no kept row is complete (their order and final positions are `Board.RowSettles`) |
| Board.ClearedNoFullRow | game.js:158-167 | after the clear the board keeps its shape and no row is complete |
| Board.ClearedCount | game.js:158-167 | the clear removes exactly NX occupied cells per complete row |
| Board.ClearedIdempotent | game.js:158-167 | a board without complete rows is left unchanged, so clearing twice is clearing once |
| Board.RowSettles | game.js:163 | an incomplete row moves down by the number of complete rows below it and keeps its contents |
| Board.PendingFull | game.js:161-165 | removing a complete row during the scan empties the top row, shifts the rows above down by one and counts one more cleared row |
| Board.PendingKeep | game.js:160-161 | passing over an incomplete row leaves the board and the count alone |
| Board.ShiftedAt | game.js:163-164 | after removing row y, row 0 is empty, rows 1..y hold the old rows 0..y-1 and the rows below y are unchanged |
| Scoring.Points | game.js:171 | the award for c rows at once, `100 * 2^(c-1)` |
| Scoring.StepFor | game.js:172 | the fall interval after `rows` rows, `max(SPEED_MIN, SPEED_START - SPEED_DEC * rows)` in milliseconds |
| Scoring.PointsDouble | game.js:171 | each extra row in one clear doubles the award: 100, 200, 400, 800 |
| Scoring.StepMonotone | game.js:172 | the fall interval stays within [SPEED_MIN, SPEED_START] and never grows as rows accumulate |
| Scoring.StepFloor | game.js:172 | the fall interval reaches its floor exactly from 50 rows on |
| Bag.Refilled | game.js:90-92 | the pool a draw takes from: all seven kinds when the pool is empty, otherwise the pool |
| Bag.Draw | game.js:89-96 | one `nextPiece` draw: the kind at index `floor(u * n)` of the refilled pool, and the pool with it spliced out |
| Bag.Index | game.js:93 | the random index is below the pool size |
| Bag.IndexReachable | game.js:93 | every index of the pool is chosen by some random number |
| Bag.AllKindsDistinct | game.js:91 | the refill holds all seven kinds, each once |
| Bag.DrawRemovesOne | game.js:90-94 | the pool is refilled only when empty, and a draw removes exactly the drawn kind from it |
| Bag.DrawKeepsBag | game.js:94 | after a draw the pool still has no kind twice and no longer holds the drawn kind |
| Bag.DealDrainsPool | game.js:89-96 | as many draws as the pool holds empty it, whatever the random numbers |
| Bag.DealDealsPool | game.js:89-96 | those draws deal every kind of the pool exactly as often as it occurs |
| Bag.SevenDrawsDealEachKindOnce | game.js:89-96 | seven draws starting from a refill deal each kind exactly once and leave the pool empty |
| Session.Moved | game.js:139-142 | `move(dx, dy)`: the shifted piece when it can be placed, otherwise the piece unchanged |
| Session.Rotated | game.js:144-147 | `rotate()`: the piece in direction `(dir + 1) % 4` when that can be placed, otherwise unchanged |
| Session.ClearW | game.js:158-174 | `clearLines` on the world: the cleared board, and when c > 0 rows were complete, rows + c, the award added and the interval recomputed |
| Session.DropW | game.js:149-156 | `drop()`: one row down when the row below is free, otherwise the lock |
| Session.LockW | game.js:150-154 | the lock branch: lock and clear, then promotion |
| Session.LockClearW | game.js:151-152 | the piece written into the board, then `clearLines` |
| Session.PromoteW | game.js:153-154 | `current = next`, a new `next` drawn, and `gameOver()` when the new active piece cannot be placed |
| Session.HandleW | game.js:111-119 | `handleActions()`: the first queued action is taken off and performed; `'down'` drops; any other string does nothing more |
| Session.FrameW | game.js:102-106 | the PLAY branch of `loop`: nothing outside PLAY, otherwise add the time, handle one action, then the natural fall |
| Session.FallW | game.js:105 | `if (dt > step) { dt -= step; drop(); }` |
| Session.ResetW | game.js:75-82 | `resetGame()`: empty board, zero score, rows and accumulator, the starting interval, two draws and an empty queue |
| Session.StartW | game.js:257-259 | `startGame()`: reset, then PLAY |
| Session.ResumeW | game.js:263-264 | `resumeGame()`: PLAY, from any state |
| Session.TogglePauseW | game.js:281-288 | `togglePause()`: PLAY to PAUSE, PAUSE to PLAY, other states unchanged |
| Session.ShowMenuW | game.js:290-291 | `showMenu()`: MENU |
| Session.MovedSpec | game.js:139-142 | a move commits exactly when the shifted piece is placeable, otherwise the piece is unchanged, and a placeable piece stays placeable |
| Session.RotatedSpec | game.js:144-147 | a rotation changes only the direction, to (dir+1)%4, exactly when that is placeable, and a placeable piece stays placeable |
| Session.RotatedSquare | game.js:144-147 | turning the square occupies the same cells and succeeds exactly when the square is placeable |
| Session.ClearWSpec | game.js:158-174 | after `clearLines` no row is complete, rows grows by the number of complete rows, NX cells go per row, the score grows by the award and the interval follows the row count without growing |
| Session.ClearWKeeps | game.js:168-174 | `clearLines` touches only the board and the three counters, and nothing when no row is complete |
| Session.GameOverW | game.js:268-279 | `gameOver` enters OVER and sets the high score to the larger of it and the score, changing nothing else |
| Session.LockClearSpec | game.js:151-152 | lock and clear change only the board and the counters, which do not shrink, and the interval does not grow |
| Session.PromoteSpec | game.js:153-154 | `next` becomes active and a fresh spawn becomes `next`; the game ends exactly when the new active piece does not fit, and the high score takes in the score then |
| Session.LockSpec | game.js:149-156 | the whole lock: cleared locked board, promoted pieces, OVER exactly when the new piece does not fit, counters up, interval down, queue and accumulator untouched, invariant kept |
| Session.LockCounts | game.js:151-152 | locking a placeable piece adds four cells and each cleared row takes NX away; no complete row is left and the score grows by the award |
| Session.DropSpec | game.js:149-156 | every drop leaves a live world: the piece moved down, or the new piece fits, or the game is over; the counters do not shrink and the interval does not grow |
| Session.DropLocks | game.js:150-154 | when the cell below is taken, a drop is the lock |
| Session.DropDescends | game.js:150-155 | when the cells below are free, a drop moves the piece down one row and changes nothing else |
| Session.DropStates | game.js:154 | a drop leaves the state alone or ends the game |
| Session.HandleSpec | game.js:111-119 | exactly one queued action is consumed (none when empty), an unknown string has no other effect, a live world stays live, the state stays or becomes OVER, and the score, row count and high score do not shrink while the interval does not grow |
| Session.FrameIdle | game.js:102 | outside PLAY a frame changes nothing |
| Session.FrameSpec | game.js:102-106 | in PLAY a frame keeps the invariant and a live world live, consumes at most one action, never grows the interval and never shrinks the score or high score |
| Session.FallSpec | game.js:105 | the natural fall keeps the invariant and liveness and leaves the queue alone |
| Session.FallAfterOverLocks | game.js:102-106 | after the game has ended within a frame, a due fall with the row below taken is the full lock, with no test of the state |
| Session.FrameWaits | game.js:103-105 | with an empty queue and the accumulator not past the interval, a frame only adds the elapsed time |
| Session.FrameFalls | game.js:103-105 | with an empty queue and the accumulator past the interval, a frame is exactly one drop and the accumulator keeps the remainder |
| Session.ResetOk | game.js:75-82 | the world `resetGame` leaves behind keeps the invariant |
| Session.StartLive | game.js:257-259 | a new game is live in PLAY on an empty board with zero score, rows and accumulator, the starting interval, an empty queue and the old high score |
| Session.TogglePauseSpec | game.js:281-288 | `togglePause` swaps PLAY and PAUSE, leaves other states alone, changes nothing else, keeps liveness, and undoes itself |
| Session.ResumeFromPause | game.js:263-264 | resuming from PAUSE enters PLAY live |
| Session.EndingKeepsLive | game.js:268-294 | `showMenu` and `gameOver` keep the world live; the menu keeps the high score and game over raises it to the score |
| Tetris.Game.Occupied | game.js:129-131 | `occupied` on the column-major array agrees with occupancy on the rows |
| Tetris.Game.CanPlace | game.js:133-137 | `canPlace` on the array agrees with placeability on the rows |
| Tetris.Game.RowFull | game.js:161 | `blocks.every(col => col[y])` holds exactly when row y is complete |
| Tetris.Game.LockStep | game.js:122-126 | one scan step writes the piece's kind into the cell it visits exactly when its bit is set |
| Tetris.Game.LockPiece | game.js:151 | the bit loop leaves the array holding the locked board |
| Tetris.Game.PaintedLocks | game.js:151 | a finished scan leaves the array equal to the locked board |
| Tetris.Game.ShiftDown | game.js:163-164 | the inner loop removes row y: row 0 empty, the rows above y down by one |
| Tetris.Game.RemoveFullRows | game.js:158-167 | the backtracking scan counts the complete rows and leaves the cleared board |
| Tetris.Game.ClearLines | game.js:158-174 | `clearLines` has exactly the effect of `Session.ClearW` and returns the number of complete rows |
| Tetris.Game.NextPiece | game.js:89-96 | `nextPiece` returns the spawn of the drawn kind and leaves the pool of `Bag.Draw` |
| Tetris.Game.Move | game.js:139-142 | `move` sets the active piece to `Session.Moved` and keeps the invariant |
| Tetris.Game.Rotate | game.js:144-147 | `rotate` sets the active piece to `Session.Rotated` and keeps the invariant |
| Tetris.Game.Drop | game.js:149-156 | `drop` has exactly the effect of `Session.DropW`, keeps the invariant and always leaves the world live |
| Tetris.Game.LockDown | game.js:150-154 | the lock branch has exactly the effect of `Session.LockW` |
| Tetris.Game.Promote | game.js:153-154 | promotion has exactly the effect of `Session.PromoteW` |
| Tetris.Game.LockAndClear | game.js:151-152 | the lock followed by `clearLines` has exactly the effect of `Session.LockClearW` |
| Tetris.Game.GameOver | game.js:268-279 | `gameOver` has exactly the effect of `Session.GameOverW` |
| Tetris.Game.Enqueue | game.js:217-220 | an input handler appends its action string to the queue |
| Tetris.Game.HandleActions | game.js:111-119 | `handleActions` has exactly the effect of `Session.HandleW`, keeps the invariant and keeps a live world live |
| Tetris.Game.Loop | game.js:102-106 | one loop call has exactly the effect of `Session.FrameW`, keeps the invariant and keeps a live world live |
| Tetris.Game.Fall | game.js:105 | the natural fall has exactly the effect of `Session.FallW` |
| Tetris.Game.AddTime | game.js:103 | `dt += delta` is `Session.Tick` |
| Tetris.Game.TakeStep | game.js:105 | `dt -= step` is `Session.Spend` |
| Tetris.Game.ResetGame | game.js:75-82 | `resetGame` allocates a fresh board and has exactly the effect of `Session.ResetW` |
| Tetris.Game.BlankAll | game.js:76-80 | a fresh empty board, zero counters, the starting interval and an empty queue |
| Tetris.Game.DealPieces | game.js:79 | `current` and `next` are two successive draws |
| Tetris.Game.NewBoard | game.js:76 | a fresh array of NX by NY empty cells |
| Tetris.Game.StartGame | game.js:257-259 | `startGame` has exactly the effect of `Session.StartW` and leaves a live game in PLAY |
| Tetris.Game.ResumeGame | game.js:263-264 | `resumeGame` enters PLAY |
| Tetris.Game.TogglePause | game.js:281-288 | `togglePause` has exactly the effect of `Session.TogglePauseW` |
| Tetris.Game.ShowMenu | game.js:290-291 | `showMenu` enters MENU |
| Tetris.Game.constructor | game.js:65-69 | the saved high score is read (game.js:69), and the page enters MENU through `showMenu()` at game.js:302, with a valid, empty game |

## Left out

- Canvas drawing, sprites, overlays, fullscreen and resizing (`draw`, `gsap`, `hideOverlays`, `onResize`) only show the game and change none of its state.
- Tetris.Game.Loop: each call is modelled as if the host kept calling `loop` once per frame. In the source as written, `draw` also decides whether a later frame ever comes. The page runs `showMenu(); requestAnimationFrame(loop);` (game.js:302-303), so the first `loop` runs in MENU before any `resetGame`. There, `draw` (game.js:107) reads `blocks[x][y]` (game.js:181) while `blocks` is still undefined, which throws before `requestAnimationFrame(loop)` (game.js:108). Nothing else schedules `loop`, so after `startGame` the PLAY branch (game.js:102-106) never runs: no piece falls and no queued action is handled. Within one call the modelled state is still right, because lines 102-106 run before line 107. Drawing is not modelled, so the model does not reproduce this halt.
- Sounds (Howler) are foreign library calls with no effect on the game state.
- The DOM lookups and `updateStats` text writes are output only.
- The keyboard and touch bindings are left out. Only the action strings they push are modelled, by `Tetris.Game.Enqueue`.
- The `localStorage` read and write of the high score is left out. The saved value is a constructor parameter, and only the comparison in `gameOver` is modelled.
- `requestAnimationFrame` and `performance.now` are host scheduling. A frame takes its elapsed time as a whole number of milliseconds.
- Fractional milliseconds are not modelled, so `delta` is a `nat`.
- `Math.random` is left out. Each draw takes its value as a parameter.
- Scoring.StepFor: the interval is exact in whole milliseconds. The source keeps `step` and `dt` as binary doubles in seconds, where `0.6 - 0.01 * rows` misses its decimal value for about half of the row counts below 50 (0.5599999999999999 after 4 rows, 0.39999999999999997 after 20). So `dt > step` in the loop can differ from this model when the accumulated time equals the interval exactly; the model decides that boundary in exact arithmetic.
- Board.SetCell: a write outside the board leaves the board unchanged. In the source an off-board column throws, and an off-board row stores a stray property on the column array. Every write the lock makes is on the board (`Board.ScanInBounds`, from `InBounds(current)`), so neither case arises.
- Tetris.Game.constructor: before the first `startGame` the source leaves every module variable of game.js:65 undefined except `highscore`: `blocks`, `current`, `next`, `score`, `rows`, `step`, `dt` and `actions`. `state` stays undefined until `showMenu()` at game.js:302. The model uses placeholders (an empty board, zero counters, `SPEED_START`, an empty queue) so that the invariant holds from the start.
- Tetris.Game.Enqueue: before the first game the source's `actions` is undefined, so a touch or swipe push in the menu (game.js:232-240) throws. The model appends to the empty queue instead. After a game has started, the source and the model both append.
